/**
 * The `CPU` of src/emulator/cpu.rs as a class whose arrays and registers are
 * updated in place. Each handler method is proved to carry out exactly the
 * transition of the function of the same name in module Semantics, so what
 * is proved there about the values holds of the object. The exceptions:
 * `FromFile` follows `Semantics.Load`, `CountDownTimers` follows
 * `Semantics.DecrementTimers`, and `Run`, `RunSystem`, `RunArithmetic`,
 * `RunKeys` and `RunMisc` follow `Semantics.Execute`; the sprite loops are
 * proved against module Sprite (`DrawRows` against `Blit` and `Collides`,
 * `DrawByte` against `RowCovers` and `RowCollides`), and `NextBit`, one
 * shift step of `draw_byte`, against `SpriteBit` and `ShiftBit`.
 */
module Cpu {
  import opened Bytes
  import opened Wrappers
  import opened Input
  import opened Display
  import opened Sprite
  import opened Semantics

  /** A handler that may fail did what `spec` says: the new state on success, no change on failure. */
  predicate Follows(spec: Result<Machine>, before: Machine, status: Result<()>, after: Machine)
  {
    match spec
    case Ok(m') => status == Ok(()) && after == m'
    case Err(e) => status == Err(e) && after == before
  }

  class CPU {
    var pc: nat
    const memory: array<u8>
    const registers: array<u8>
    var iRegister: u16
    var delayRegister: u8
    var soundRegister: u8
    var stackPointer: nat
    const stack: array<u16>

    ghost predicate Valid()
      reads this
    {
      && memory.Length == MemorySize && registers.Length == 16 && stack.Length == MaxStackDepth
      && stackPointer <= MaxStackDepth && memory != registers
    }

    /** The state as a value. */
    function Model(): (m: Machine)
      reads this, memory, registers, stack
      ensures Valid() ==> ValidMachine(m)
    {
      Machine(pc, memory[..], registers[..], iRegister, delayRegister, soundRegister, stackPointer, stack[..])
    }

    /** `CPU::new`. */
    constructor (image: seq<u8>)
      requires |image| == MemorySize
      ensures Valid() && fresh(memory) && fresh(registers) && fresh(stack)
      ensures Model() == Initial(image)
    {
      pc := LoadAddress;
      memory := new u8[MemorySize](j requires 0 <= j < MemorySize => image[j]);
      registers := new u8[16](_ => 0);
      iRegister := 0;
      delayRegister := 0;
      soundRegister := 0;
      stackPointer := 0;
      stack := new u16[MaxStackDepth](_ => 0);
      new;
      assert memory[..] == image;
      assert registers[..] == Zeros(16);
      assert stack[..] == seq(MaxStackDepth, _ => 0);
    }

    /**
     * `CPU::from_file`, given the bytes of the file: the font, zeros to the
     * load address and the program, padded with zeros to the memory size.
     */
    static method FromFile(program: seq<u8>) returns (r: Result<CPU>)
      ensures r.Err? ==> Load(program) == Err(r.error)
      ensures r.Ok? ==> Load(program).Ok? && fresh(r.value) && r.value.Valid()
                        && r.value.Model() == Load(program).value
    {
      var buffer := Zeros(LoadAddress);
      for j := 0 to |Font|
        invariant |buffer| == LoadAddress
        invariant buffer == Font[..j] + Zeros(LoadAddress - j)
      {
        buffer := buffer[j := Font[j]];
        assert buffer == Font[..j + 1] + Zeros(LoadAddress - (j + 1));
      }
      buffer := buffer + program;
      ghost var loaded := buffer;
      if |buffer| == LoadAddress {
        return Err(EmptyProgram);
      } else if |buffer| > MemorySize {
        return Err(ProgramTooLarge(|buffer|));
      }
      while |buffer| < MemorySize
        invariant |loaded| <= |buffer| <= MemorySize
        invariant buffer == loaded + Zeros(|buffer| - |loaded|)
        decreases MemorySize - |buffer|
      {
        buffer := buffer + [0];
        assert buffer == loaded + Zeros(|buffer| - |loaded|);
      }
      var cpu := new CPU(buffer);
      return Ok(cpu);
    }

    method IncrementPc()
      requires Valid()
      modifies this
      ensures Valid() && Model() == Semantics.IncrementPc(old(Model()))
    {
      pc := pc + 2;
    }

    method Jump(addr: nat)
      requires Valid()
      modifies this
      ensures Valid() && Model() == Semantics.Jump(old(Model()), addr)
    {
      pc := addr;
    }

    method Call(addr: nat) returns (r: Result<()>)
      requires Valid() && pc + 2 < 0x1_0000
      modifies this, stack
      ensures Valid() && Follows(Semantics.Call(old(Model()), addr), old(Model()), r, Model())
    {
      if stackPointer >= MaxStackDepth {
        return Err(StackOverflow);
      }
      stack[stackPointer] := pc + 2;
      stackPointer := stackPointer + 1;
      Jump(addr);
      return Ok(());
    }

    method Ret() returns (r: Result<()>)
      requires Valid()
      modifies this
      ensures Valid() && Follows(Semantics.Ret(old(Model())), old(Model()), r, Model())
    {
      if stackPointer == 0 {
        return Err(StackUnderflow);
      }
      stackPointer := stackPointer - 1;
      Jump(stack[stackPointer]);
      return Ok(());
    }

    method SkipRegImmEq(x: Nibble, byte: u8)
      requires Valid()
      modifies this
      ensures Valid() && Model() == Semantics.SkipRegImmEq(old(Model()), x, byte)
    {
      if registers[x] == byte {
        IncrementPc();
      }
      IncrementPc();
    }

    method SkipRegImmNeq(x: Nibble, byte: u8)
      requires Valid()
      modifies this
      ensures Valid() && Model() == Semantics.SkipRegImmNeq(old(Model()), x, byte)
    {
      if registers[x] != byte {
        IncrementPc();
      }
      IncrementPc();
    }

    method SkipRegRegEq(x: Nibble, y: Nibble)
      requires Valid()
      modifies this
      ensures Valid() && Model() == Semantics.SkipRegRegEq(old(Model()), x, y)
    {
      if registers[x] == registers[y] {
        IncrementPc();
      }
      IncrementPc();
    }

    method SkipRegRegNeq(x: Nibble, y: Nibble)
      requires Valid()
      modifies this
      ensures Valid() && Model() == Semantics.SkipRegRegNeq(old(Model()), x, y)
    {
      if registers[x] != registers[y] {
        IncrementPc();
      }
      IncrementPc();
    }

    method LoadImm(x: Nibble, byte: u8)
      requires Valid()
      modifies this, registers
      ensures Valid() && Model() == Semantics.LoadImm(old(Model()), x, byte)
    {
      registers[x] := byte;
      IncrementPc();
    }

    method AddImm(x: Nibble, byte: u8)
      requires Valid()
      modifies this, registers
      ensures Valid() && Model() == Semantics.AddImm(old(Model()), x, byte)
    {
      var (result, _) := OverflowingAdd(byte, registers[x]);
      registers[x] := result;
      IncrementPc();
    }

    method LoadReg(x: Nibble, y: Nibble)
      requires Valid()
      modifies this, registers
      ensures Valid() && Model() == Semantics.LoadReg(old(Model()), x, y)
    {
      registers[x] := registers[y];
      IncrementPc();
    }

    method OrReg(x: Nibble, y: Nibble)
      requires Valid()
      modifies this, registers
      ensures Valid() && Model() == Semantics.OrReg(old(Model()), x, y)
    {
      registers[x] := Or(registers[x], registers[y]);
      IncrementPc();
    }

    method AndReg(x: Nibble, y: Nibble)
      requires Valid()
      modifies this, registers
      ensures Valid() && Model() == Semantics.AndReg(old(Model()), x, y)
    {
      registers[x] := And(registers[x], registers[y]);
      IncrementPc();
    }

    method XorReg(x: Nibble, y: Nibble)
      requires Valid()
      modifies this, registers
      ensures Valid() && Model() == Semantics.XorReg(old(Model()), x, y)
    {
      registers[x] := Xor(registers[x], registers[y]);
      IncrementPc();
    }

    method AddReg(x: Nibble, y: Nibble)
      requires Valid()
      modifies this, registers
      ensures Valid() && Model() == Semantics.AddReg(old(Model()), x, y)
    {
      var (result, overflow) := OverflowingAdd(registers[x], registers[y]);
      registers[x] := result;
      registers[Flag] := if overflow then 1 else 0;
      IncrementPc();
    }

    method SubRegWithDest(r1: Nibble, r2: Nibble, dest: Nibble)
      requires Valid()
      modifies this, registers
      ensures Valid() && Model() == Semantics.SubRegWithDest(old(Model()), r1, r2, dest)
    {
      var (result, overflow) := OverflowingSub(registers[r1], registers[r2]);
      registers[dest] := result;
      registers[Flag] := if overflow then 0 else 1;
      IncrementPc();
    }

    method SubReg(x: Nibble, y: Nibble)
      requires Valid()
      modifies this, registers
      ensures Valid() && Model() == Semantics.SubReg(old(Model()), x, y)
    {
      SubRegWithDest(x, y, x);
    }

    method SubnReg(x: Nibble, y: Nibble)
      requires Valid()
      modifies this, registers
      ensures Valid() && Model() == Semantics.SubnReg(old(Model()), x, y)
    {
      SubRegWithDest(y, x, x);
    }

    method ShrReg(x: Nibble)
      requires Valid()
      modifies this, registers
      ensures Valid() && Model() == Semantics.ShrReg(old(Model()), x)
    {
      registers[Flag] := registers[x] % 2;
      registers[x] := registers[x] / 2;
      IncrementPc();
    }

    method ShlReg(x: Nibble)
      requires Valid()
      modifies this, registers
      ensures Valid() && Model() == Semantics.ShlReg(old(Model()), x)
    {
      registers[Flag] := registers[x] / 128;
      registers[x] := (registers[x] as int * 2) % 256;
      IncrementPc();
    }

    method SetI(addr: u16)
      requires Valid()
      modifies this
      ensures Valid() && Model() == Semantics.SetI(old(Model()), addr)
    {
      iRegister := addr;
      IncrementPc();
    }

    method JumpV0(addr: nat)
      requires Valid()
      modifies this
      ensures Valid() && Model() == Semantics.JumpV0(old(Model()), addr)
    {
      Jump(registers[0] + addr);
    }

    /** `random` stands for the byte `rand::thread_rng` would draw. */
    method LoadAndRndImm(x: Nibble, byte: u8, random: u8)
      requires Valid()
      modifies this, registers
      ensures Valid() && Model() == Semantics.LoadAndRndImm(old(Model()), x, byte, random)
    {
      registers[x] := And(random, byte);
      IncrementPc();
    }

    /**
     * `draw_byte`: XORs the bits of `byte`, most significant first, onto row
     * `y` mod 32 from column `x` on, wrapping at column 64; reports whether a
     * lit pixel was hit by a set bit.
     */
    method DrawByte(x: nat, y: nat, byte: u8, display: DisplayBuffer, ghost g0: seq<seq<bool>>) returns (collided: bool)
      requires display.Valid() && ValidGrid(g0)
      requires forall r, c :: 0 <= r < Height && 0 <= c < Width ==> display.buffer[r, c] == g0[r][c]
      modifies display.buffer
      ensures forall r, c :: 0 <= r < Height && 0 <= c < Width ==>
        display.buffer[r, c] == (g0[r][c] != RowCovers(byte, x, y, 8, r, c))
      ensures collided == RowCollides(g0, byte, x, y, 8)
    {
      collided := false;
      var bits := ReverseBits(byte as bv8);
      for bit := 0 to 8
        invariant forall k: nat :: k < 8 - bit ==> BitSet(bits, k) == SpriteBit(byte, bit + k)
        invariant forall r, c :: 0 <= r < Height && 0 <= c < Width ==>
          display.buffer[r, c] == (g0[r][c] != Flipped(byte, x, y, bit, r, c))
        invariant collided == RowCollides(g0, byte, x, y, bit)
      {
        var i := y % Height;
        var j := (x + bit) % Width;
        var on;
        on, bits := NextBit(bits, byte, bit);
        var prev := display.buffer[i, j];
        FlippedNotYet(byte, x, y, bit);
        assert prev == g0[i][j];
        display.buffer[i, j] := prev != on;
        if prev && !display.buffer[i, j] {
          collided := true;
        }
      }
      forall r, c | 0 <= r < Height && 0 <= c < Width {
        FlippedIsRowCovers(byte, x, y, 8, r, c);
      }
    }

    /**
     * One step of the `draw_byte` loop over the reversed byte: its low bit is
     * sprite bit `bit` of `byte`, and shifting right leaves the remaining bits
     * in order for the next step.
     */
    method NextBit(bits: bv8, ghost byte: u8, ghost bit: nat) returns (on: bool, rest: bv8)
      requires bit < 8
      requires forall k: nat :: k < 8 - bit ==> BitSet(bits, k) == SpriteBit(byte, bit + k)
      ensures on == SpriteBit(byte, bit)
      ensures forall k: nat :: k < 8 - (bit + 1) ==> BitSet(rest, k) == SpriteBit(byte, bit + 1 + k)
    {
      on := bits & 1 == 1;
      assert on == BitSet(bits, 0);
      ShiftBit(bits, bits >> 1);
      rest := bits >> 1;
    }

    /**
     * `draw_sprite`: draws the `n` bytes at I as rows at (Vx, Vy), Vy + 1, ...;
     * VF := whether any row collided; marks the buffer dirty.
     */
    method DrawSprite(x: Nibble, y: Nibble, n: Nibble, display: DisplayBuffer) returns (r: Result<()>)
      requires Valid() && display.Valid()
      modifies this, registers, display, display.buffer
      ensures Valid() && display.Valid()
      ensures match Semantics.DrawSprite(old(Model()), old(display.Model()), x, y, n)
              case Ok((m', f')) => r == Ok(()) && Model() == m' && display.Model() == f'
              case Err(e) => r == Err(e) && Model() == old(Model()) && display.Model() == old(display.Model())
    {
      if iRegister as int + n > MemorySize {
        return Err(SpriteOutOfBounds(n, iRegister));
      }
      ghost var m0, f0 := Model(), display.Model();
      var vx := registers[x] as nat;
      var vy := registers[y] as nat;
      var i := iRegister;
      var sprite := memory[i .. i + n];
      var collided := DrawRows(vx, vy, sprite, display, f0.buffer);
      assert Model() == m0;
      registers[Flag] := if collided then 1 else 0;
      display.isDirty := true;
      IncrementPc();
      assert Model() == Semantics.IncrementPc(m0.(registers := m0.registers[Flag := if collided then 1 else 0]));
      display.ModelIs(Frame(Blit(f0.buffer, sprite, vx, vy), true));
      assert Semantics.DrawSprite(m0, f0, x, y, n) == Ok((Model(), display.Model()));
      return Ok(());
    }

    /**
     * The loop of `draw_sprite`: `draw_byte` for each byte of `sprite`, one
     * screen row further down each time; reports whether any row collided.
     */
    method DrawRows(x: nat, y: nat, sprite: seq<u8>, display: DisplayBuffer, ghost g0: seq<seq<bool>>) returns (collided: bool)
      requires display.Valid() && ValidGrid(g0) && |sprite| <= Height
      requires forall r, c :: 0 <= r < Height && 0 <= c < Width ==> display.buffer[r, c] == g0[r][c]
      modifies display.buffer
      ensures forall r, c :: 0 <= r < Height && 0 <= c < Width ==> display.buffer[r, c] == Blit(g0, sprite, x, y)[r][c]
      ensures collided == Collides(g0, sprite, x, y)
    {
      var row := y;
      collided := false;
      for k := 0 to |sprite|
        invariant row == y + k
        invariant forall r, c :: 0 <= r < Height && 0 <= c < Width ==>
          display.buffer[r, c] == Blit(g0, sprite[..k], x, y)[r][c]
        invariant collided == Collides(g0, sprite[..k], x, y)
      {
        var hit := DrawByte(x, row, sprite[k], display, Blit(g0, sprite[..k], x, y));
        BlitNextRow(g0, sprite, x, y, k);
        CollidesNextRowBlit(g0, sprite, x, y, k);
        if hit {
          collided := true;
        }
        row := row + 1;
      }
      assert sprite[..|sprite|] == sprite;
    }

    method SkipKeydown(x: Nibble, keyboard: Keyboard)
      requires Valid() && keyboard.Valid()
      modifies this
      ensures Valid() && Model() == Semantics.SkipKeydown(old(Model()), x, keyboard.state)
    {
      if IsKeyPressed(keyboard.state, registers[x]) {
        IncrementPc();
      }
      IncrementPc();
    }

    method SkipNotKeydown(x: Nibble, keyboard: Keyboard)
      requires Valid() && keyboard.Valid()
      modifies this
      ensures Valid() && Model() == Semantics.SkipNotKeydown(old(Model()), x, keyboard.state)
    {
      if !IsKeyPressed(keyboard.state, registers[x]) {
        IncrementPc();
      }
      IncrementPc();
    }

    method LoadDelayTimer(x: Nibble)
      requires Valid()
      modifies this, registers
      ensures Valid() && Model() == Semantics.LoadDelayTimer(old(Model()), x)
    {
      registers[x] := delayRegister;
      IncrementPc();
    }

    method SetDelayTimer(x: Nibble)
      requires Valid()
      modifies this
      ensures Valid() && Model() == Semantics.SetDelayTimer(old(Model()), x)
    {
      delayRegister := registers[x];
      IncrementPc();
    }

    method SetSoundTimer(x: Nibble)
      requires Valid()
      modifies this
      ensures Valid() && Model() == Semantics.SetSoundTimer(old(Model()), x)
    {
      soundRegister := registers[x];
      IncrementPc();
    }

    method WaitKeypress(x: Nibble, keyboard: Keyboard)
      requires Valid() && keyboard.Valid()
      modifies this, registers
      ensures Valid() && Model() == Semantics.WaitKeypress(old(Model()), x, keyboard.state)
    {
      var key := keyboard.AnyPressedKey();
      if key.Some? {
        registers[x] := key.value;
        IncrementPc();
      }
    }

    method AddIReg(x: Nibble)
      requires Valid()
      modifies this
      ensures Valid() && Model() == Semantics.AddIReg(old(Model()), x)
    {
      iRegister := (iRegister + registers[x] as int) % 0x1_0000;
      IncrementPc();
    }

    method LoadSpriteAddress(x: Nibble)
      requires Valid()
      modifies this
      ensures Valid() && Model() == Semantics.LoadSpriteAddress(old(Model()), x)
    {
      var digit := registers[x];
      iRegister := digit * SpriteSize;
      IncrementPc();
    }

    method StoreBcdRepresentation(x: Nibble) returns (r: Result<()>)
      requires Valid()
      modifies this, memory
      ensures Valid() && Follows(Semantics.StoreBcdRepresentation(old(Model()), x), old(Model()), r, Model())
    {
      var i := iRegister;
      if i >= MemorySize - 2 {
        return Err(BcdOutOfBounds(i));
      }
      var value := registers[x];
      memory[i + 2] := value % 10;
      value := value / 10;
      memory[i + 1] := value % 10;
      value := value / 10;
      memory[i] := value % 10;
      IncrementPc();
      return Ok(());
    }

    method StoreRegisters(lastRegister: Nibble) returns (r: Result<()>)
      requires Valid()
      modifies this, memory
      ensures Valid() && Follows(Semantics.StoreRegisters(old(Model()), lastRegister), old(Model()), r, Model())
    {
      var i := iRegister as nat;
      if i + lastRegister >= MemorySize {
        return Err(StoreOutOfBounds(lastRegister + 1, iRegister));
      }
      for k := 0 to lastRegister + 1
        invariant forall j :: 0 <= j < k ==> memory[i + j] == registers[j]
        invariant forall a :: 0 <= a < MemorySize && !(i <= a < i + k) ==> memory[a] == old(memory[a])
        modifies memory
      {
        memory[i + k] := registers[k];
      }
      assert memory[..] == old(memory[..])[..i] + registers[..lastRegister + 1] + old(memory[..])[i + lastRegister + 1..];
      IncrementPc();
      return Ok(());
    }

    method ReadRegisters(lastRegister: Nibble) returns (r: Result<()>)
      requires Valid()
      modifies this, registers
      ensures Valid() && Follows(Semantics.ReadRegisters(old(Model()), lastRegister), old(Model()), r, Model())
    {
      var i := iRegister as nat;
      if i + lastRegister >= MemorySize {
        return Err(ReadOutOfBounds(lastRegister + 1, iRegister));
      }
      for k := 0 to lastRegister + 1
        invariant forall j :: 0 <= j < k ==> registers[j] == memory[i + j]
        invariant forall j :: k <= j < 16 ==> registers[j] == old(registers[j])
        modifies registers
      {
        registers[k] := memory[i + k];
      }
      assert registers[..] == memory[i .. i + lastRegister + 1] + old(registers[..])[lastRegister + 1..];
      IncrementPc();
      return Ok(());
    }

    method ClearScreen(display: DisplayBuffer)
      requires Valid() && display.Valid()
      modifies this, display, display.buffer
      ensures Valid() && display.Valid()
      ensures Model() == Semantics.ClearScreen(old(Model()), old(display.Model())).0
      ensures display.Model() == Semantics.ClearScreen(old(Model()), old(display.Model())).1
    {
      for i := 0 to display.buffer.Length0
        invariant forall r, c :: 0 <= r < i && 0 <= c < Width ==> !display.buffer[r, c]
        modifies display.buffer
      {
        for j := 0 to display.buffer.Length1
          invariant forall r, c :: 0 <= r < i && 0 <= c < Width ==> !display.buffer[r, c]
          invariant forall c :: 0 <= c < j ==> !display.buffer[i, c]
        {
          display.buffer[i, j] := false;
        }
      }
      display.isDirty := true;
      IncrementPc();
      display.ModelIs(Frame(Blank(), true));
    }

    method Noop()
      requires Valid()
      modifies this
      ensures Valid() && Model() == Semantics.Noop(old(Model()))
    {
      IncrementPc();
    }
  
    /**
     * `tick`: checks pc, counts the timers down when asked, fetches the two
     * bytes at pc and runs the handler the first matching pattern picks.
     * `random` is the byte a Cxkk would draw.
     */
    method Tick(keyboard: Keyboard, display: DisplayBuffer, decrementTimers: bool, random: u8) returns (r: Result<()>)
      requires Valid() && keyboard.Valid() && display.Valid()
      modifies this, memory, registers, stack, display, display.buffer
      ensures Valid() && display.Valid()
      ensures TickResult(r, Model(), display.Model())
              == Semantics.Tick(old(Model()), keyboard.state, old(display.Model()), decrementTimers, random)
    {
      if pc + 1 >= MemorySize {
        return Err(PcOutOfBounds(pc));
      }
      if decrementTimers {
        CountDownTimers();
      }
      r := Run(keyboard, display, random, memory[pc], memory[pc + 1]);
    }

    /** The timer step of `tick`: each timer that is not yet 0 counts down by one. */
    method CountDownTimers()
      requires Valid()
      modifies this
      ensures Valid() && Model() == DecrementTimers(old(Model()), true)
    {
      if delayRegister > 0 {
        delayRegister := delayRegister - 1;
      }
      if soundRegister > 0 {
        soundRegister := soundRegister - 1;
      }
    }

    /** The `match` of `tick` on the fetched bytes `high`, `low`, one group of patterns per first nibble. */
    method Run(keyboard: Keyboard, display: DisplayBuffer, random: u8, high: u8, low: u8) returns (r: Result<()>)
      requires Valid() && keyboard.Valid() && display.Valid() && pc + 1 < MemorySize
      modifies this, memory, registers, stack, display, display.buffer
      ensures Valid() && display.Valid()
      ensures TickResult(r, Model(), display.Model())
              == Execute(old(Model()), old(display.Model()), keyboard.state, random, Decode(high, low), Word(high, low))
    {
      var x: Nibble, y: Nibble, b: Nibble := high % 0x10, low / 0x10, low % 0x10;
      var nnn: u16 := x as int * 0x100 + low;
      match high / 0x10
      case 0 => r := RunSystem(display, high, low);
      case 1 => Jump(nnn); r := Ok(());
      case 2 => r := Call(nnn);
      case 3 => SkipRegImmEq(x, low); r := Ok(());
      case 4 => SkipRegImmNeq(x, low); r := Ok(());
      case 5 =>
        if b == 0 {
          SkipRegRegEq(x, y); r := Ok(());
        } else {
          r := Err(InvalidInstruction(Word(high, low), pc));
        }
      case 6 => LoadImm(x, low); r := Ok(());
      case 7 => AddImm(x, low); r := Ok(());
      case 8 => r := RunArithmetic(high, low);
      case 9 =>
        if b == 0 {
          SkipRegRegNeq(x, y); r := Ok(());
        } else {
          r := Err(InvalidInstruction(Word(high, low), pc));
        }
      case 0xa => SetI(nnn); r := Ok(());
      case 0xb => JumpV0(nnn); r := Ok(());
      case 0xc => LoadAndRndImm(x, low, random); r := Ok(());
      case 0xd => r := DrawSprite(x, y, b, display);
      case 0xe => r := RunKeys(keyboard, high, low);
      case 0xf => r := RunMisc(keyboard, high, low);
    }

    /** The patterns of `tick` with first nibble 0: 00E0, 00EE, then any other 0nnn. */
    method RunSystem(display: DisplayBuffer, high: u8, low: u8) returns (r: Result<()>)
      requires Valid() && display.Valid() && pc + 1 < MemorySize && high / 0x10 == 0
      modifies this, memory, registers, stack, display, display.buffer
      ensures Valid() && display.Valid()
      ensures forall keys: map<Key, bool>, random: u8 | Complete(keys) ::
        TickResult(r, Model(), display.Model())
        == Execute(old(Model()), old(display.Model()), keys, random, Decode(high, low), Word(high, low))
    {
      if high == 0 && low == 0xe0 {
        ClearScreen(display); r := Ok(());
      } else if high == 0 && low == 0xee {
        r := Ret();
      } else {
        Noop(); r := Ok(());
      }
    }

    /** The patterns of `tick` with first nibble 8: the register-to-register ALU operations 8xy0-8xy7 and 8xyE. */
    method RunArithmetic(high: u8, low: u8) returns (r: Result<()>)
      requires Valid() && pc + 1 < MemorySize && high / 0x10 == 8
      modifies this, registers
      ensures Valid()
      ensures forall f: Frame, keys: map<Key, bool>, random: u8 | ValidFrame(f) && Complete(keys) ::
        TickResult(r, Model(), f)
        == Execute(old(Model()), f, keys, random, Decode(high, low), Word(high, low))
    {
      var x: Nibble, y: Nibble := high % 0x10, low / 0x10;
      match low % 0x10
      case 0 => LoadReg(x, y); r := Ok(());
      case 1 => OrReg(x, y); r := Ok(());
      case 2 => AndReg(x, y); r := Ok(());
      case 3 => XorReg(x, y); r := Ok(());
      case 4 => AddReg(x, y); r := Ok(());
      case 5 => SubReg(x, y); r := Ok(());
      case 6 => ShrReg(x); r := Ok(());
      case 7 => SubnReg(x, y); r := Ok(());
      case 0xe => ShlReg(x); r := Ok(());
      case _ => r := Err(InvalidInstruction(Word(high, low), pc));
    }

    /** The patterns of `tick` with first nibble E: Ex9E and ExA1. */
    method RunKeys(keyboard: Keyboard, high: u8, low: u8) returns (r: Result<()>)
      requires Valid() && keyboard.Valid() && pc + 1 < MemorySize && high / 0x10 == 0xe
      modifies this
      ensures Valid()
      ensures forall f: Frame, random: u8 | ValidFrame(f) ::
        TickResult(r, Model(), f)
        == Execute(old(Model()), f, keyboard.state, random, Decode(high, low), Word(high, low))
    {
      var x: Nibble := high % 0x10;
      if low == 0x9e {
        SkipKeydown(x, keyboard); r := Ok(());
      } else if low == 0xa1 {
        SkipNotKeydown(x, keyboard); r := Ok(());
      } else {
        r := Err(InvalidInstruction(Word(high, low), pc));
      }
    }

    /** The patterns of `tick` with first nibble F: the timer, key-wait, I, font, BCD and block-transfer operations. */
    method RunMisc(keyboard: Keyboard, high: u8, low: u8) returns (r: Result<()>)
      requires Valid() && keyboard.Valid() && pc + 1 < MemorySize && high / 0x10 == 0xf
      modifies this, memory, registers
      ensures Valid()
      ensures forall f: Frame, random: u8 | ValidFrame(f) ::
        TickResult(r, Model(), f)
        == Execute(old(Model()), f, keyboard.state, random, Decode(high, low), Word(high, low))
    {
      var x: Nibble := high % 0x10;
      match low
      case 0x07 => LoadDelayTimer(x); r := Ok(());
      case 0x0a => WaitKeypress(x, keyboard); r := Ok(());
      case 0x15 => SetDelayTimer(x); r := Ok(());
      case 0x18 => SetSoundTimer(x); r := Ok(());
      case 0x1e => AddIReg(x); r := Ok(());
      case 0x29 => LoadSpriteAddress(x); r := Ok(());
      case 0x33 => r := StoreBcdRepresentation(x);
      case 0x55 => r := StoreRegisters(x);
      case 0x65 => r := ReadRegisters(x);
      case _ => r := Err(InvalidInstruction(Word(high, low), pc));
    }
  }
}
