/**
 * The CHIP-8 machine of src/emulator/cpu.rs as values: its state, its errors,
 * one state transition per instruction handler, the decoder, the per-tick
 * step and the program loader. The `CPU` class (module Cpu) is proved to
 * perform exactly these transitions in place.
 */
module Semantics {
  import opened Bytes
  import opened Wrappers
  import opened Input
  import opened Display
  import opened Sprite

  const LoadAddress: nat := 0x200
  const MemorySize: nat := 4096
  const MaxProgramSize: nat := MemorySize - LoadAddress
  const MaxStackDepth: nat := 16
  const SpriteSize: nat := 5
  /** VF, the register that receives carry, borrow, shifted-out bit and collision flags. */
  const Flag: Nibble := 0xf

  /** The hexadecimal digit glyphs, five rows of one byte each, loaded at address 0. */
  const Font: seq<u8> := [
    0xf0, 0x90, 0x90, 0x90, 0xf0,
    0x20, 0x60, 0x20, 0x20, 0x70,
    0xf0, 0x10, 0xf0, 0x80, 0xf0,
    0xf0, 0x10, 0xf0, 0x10, 0xf0,
    0x90, 0x90, 0xf0, 0x10, 0x10,
    0xf0, 0x80, 0xf0, 0x10, 0xf0,
    0xf0, 0x80, 0xf0, 0x90, 0xf0,
    0xf0, 0x10, 0x20, 0x40, 0x40,
    0xf0, 0x90, 0xf0, 0x90, 0xf0,
    0xf0, 0x90, 0xf0, 0x10, 0xf0,
    0xf0, 0x90, 0xf0, 0x90, 0x90,
    0xe0, 0x90, 0xe0, 0x90, 0xe0,
    0xf0, 0x80, 0x80, 0x80, 0xf0,
    0xe0, 0x90, 0x90, 0x90, 0xe0,
    0xf0, 0x80, 0xf0, 0x80, 0xf0,
    0xf0, 0x80, 0xf0, 0x80, 0x80
  ]

  /** The failures the emulator reports, one per error message of the source. */
  datatype Error =
    | EmptyProgram
    | ProgramTooLarge(size: nat)
    | PcOutOfBounds(pc: nat)
    | InvalidInstruction(opcode: u16, pc: nat)
    | StackOverflow
    | StackUnderflow
    | SpriteOutOfBounds(bytes: nat, address: u16)
    | BcdOutOfBounds(address: u16)
    | StoreOutOfBounds(count: nat, address: u16)
    | ReadOutOfBounds(count: nat, address: u16)

  /** `Chip8Result<T>`. */
  datatype Result<T> = Ok(value: T) | Err(error: Error)

  /** The fields of `CPU`. */
  datatype Machine = Machine(
    pc: nat,
    memory: seq<u8>,
    registers: seq<u8>,
    iRegister: u16,
    delayRegister: u8,
    soundRegister: u8,
    stackPointer: nat,
    stack: seq<u16>)

  /** The fixed sizes of the arrays, and the stack pointer never past the stack. */
  predicate ValidMachine(m: Machine)
  {
    |m.memory| == MemorySize && |m.registers| == 16 && |m.stack| == MaxStackDepth
    && m.stackPointer <= MaxStackDepth
  }

  function Zeros(n: nat): (s: seq<u8>)
    ensures |s| == n && forall j :: 0 <= j < n ==> s[j] == 0
  {
    seq(n, _ => 0)
  }

  // ---------------------------------------------------------------------------
  // Frame conditions shared by the handlers

  /** `r` is `m` with only the program counter moved on by one instruction and register `x` written. */
  predicate WritesRegister(m: Machine, r: Machine, x: Nibble)
    requires ValidMachine(m)
  {
    && r.(registers := m.registers, pc := m.pc) == m
    && r.pc == m.pc + 2
    && |r.registers| == 16
    && forall j :: 0 <= j < 16 && j != x ==> r.registers[j] == m.registers[j]
  }

  /** As `WritesRegister`, and the flag register VF may be written too. */
  predicate WritesRegisterAndFlag(m: Machine, r: Machine, x: Nibble)
    requires ValidMachine(m)
  {
    && r.(registers := m.registers, pc := m.pc) == m
    && r.pc == m.pc + 2
    && |r.registers| == 16
    && forall j :: 0 <= j < 16 && j != x && j != Flag ==> r.registers[j] == m.registers[j]
  }

  /** `r` is `m` with the program counter moved on by two instructions when `cond`, by one otherwise. */
  predicate SkipsWhen(m: Machine, r: Machine, cond: bool)
  {
    r.(pc := m.pc) == m && r.pc == if cond then m.pc + 4 else m.pc + 2
  }

  // ---------------------------------------------------------------------------
  // Rust's overflowing byte arithmetic

  /** `u8::overflowing_add`: the wrapped sum and whether it wrapped. */
  function OverflowingAdd(a: u8, b: u8): (r: (u8, bool))
    ensures r.0 + (if r.1 then 256 else 0) == a + b
  {
    ((a + b) % 256, a + b > 255)
  }

  /** `u8::overflowing_sub`: the wrapped difference and whether it wrapped. */
  function OverflowingSub(a: u8, b: u8): (r: (u8, bool))
    ensures r.0 - (if r.1 then 256 else 0) == a - b
  {
    ((a - b) % 256, a < b)
  }

  // ---------------------------------------------------------------------------
  // The instruction handlers

  function IncrementPc(m: Machine): (r: Machine)
    ensures r.pc == m.pc + 2 && r.(pc := m.pc) == m
  {
    m.(pc := m.pc + 2)
  }

  /** `jump`: 1nnn. */
  function Jump(m: Machine, addr: nat): (r: Machine)
    ensures r.pc == addr && r.(pc := m.pc) == m
  {
    m.(pc := addr)
  }

  /** `call`: 2nnn; pushes the address of the next instruction, fails on a full stack. */
  function Call(m: Machine, addr: nat): (r: Result<Machine>)
    requires ValidMachine(m) && m.pc + 2 < 0x1_0000
    ensures r.Err? <==> m.stackPointer == MaxStackDepth
    ensures r.Err? ==> r.error == StackOverflow
    ensures r.Ok? ==> ValidMachine(r.value) && r.value.pc == addr
                      && r.value.stackPointer == m.stackPointer + 1
                      && r.value.stack[m.stackPointer] == m.pc + 2
                      && forall j :: 0 <= j < MaxStackDepth && j != m.stackPointer ==> r.value.stack[j] == m.stack[j]
    ensures r.Ok? ==> r.value.(pc := m.pc, stackPointer := m.stackPointer, stack := m.stack) == m
  {
    if m.stackPointer >= MaxStackDepth then Err(StackOverflow)
    else
      var pushed := m.(stack := m.stack[m.stackPointer := m.pc + 2], stackPointer := m.stackPointer + 1);
      Ok(Jump(pushed, addr))
  }

  /** `ret`: 00EE; pops the return address, fails on an empty stack. */
  function Ret(m: Machine): (r: Result<Machine>)
    requires ValidMachine(m)
    ensures r.Err? <==> m.stackPointer == 0
    ensures r.Err? ==> r.error == StackUnderflow
    ensures r.Ok? ==> ValidMachine(r.value) && r.value.stackPointer == m.stackPointer - 1
                      && r.value.pc == m.stack[m.stackPointer - 1]
                      && r.value.(pc := m.pc, stackPointer := m.stackPointer) == m
  {
    if m.stackPointer == 0 then Err(StackUnderflow)
    else
      var popped := m.(stackPointer := m.stackPointer - 1);
      Ok(Jump(popped, popped.stack[popped.stackPointer]))
  }

  /** `skip_reg_imm_eq`: 3xkk. */
  function SkipRegImmEq(m: Machine, x: Nibble, byte: u8): (r: Machine)
    requires ValidMachine(m)
    ensures SkipsWhen(m, r, m.registers[x] == byte)
  {
    var m1 := if m.registers[x] == byte then IncrementPc(m) else m;
    IncrementPc(m1)
  }

  /** `skip_reg_imm_neq`: 4xkk. */
  function SkipRegImmNeq(m: Machine, x: Nibble, byte: u8): (r: Machine)
    requires ValidMachine(m)
    ensures SkipsWhen(m, r, m.registers[x] != byte)
  {
    var m1 := if m.registers[x] != byte then IncrementPc(m) else m;
    IncrementPc(m1)
  }

  /** `skip_reg_reg_eq`: 5xy0. */
  function SkipRegRegEq(m: Machine, x: Nibble, y: Nibble): (r: Machine)
    requires ValidMachine(m)
    ensures SkipsWhen(m, r, m.registers[x] == m.registers[y])
  {
    var m1 := if m.registers[x] == m.registers[y] then IncrementPc(m) else m;
    IncrementPc(m1)
  }

  /** `skip_reg_reg_neq`: 9xy0. */
  function SkipRegRegNeq(m: Machine, x: Nibble, y: Nibble): (r: Machine)
    requires ValidMachine(m)
    ensures SkipsWhen(m, r, m.registers[x] != m.registers[y])
  {
    var m1 := if m.registers[x] != m.registers[y] then IncrementPc(m) else m;
    IncrementPc(m1)
  }

  /** `load_imm`: 6xkk. */
  function LoadImm(m: Machine, x: Nibble, byte: u8): (r: Machine)
    requires ValidMachine(m)
    ensures ValidMachine(r) && WritesRegister(m, r, x) && r.registers[x] == byte
  {
    IncrementPc(m.(registers := m.registers[x := byte]))
  }

  /** `add_imm`: 7xkk; the sum wraps modulo 256 and VF is left alone. */
  function AddImm(m: Machine, x: Nibble, byte: u8): (r: Machine)
    requires ValidMachine(m)
    ensures ValidMachine(r) && WritesRegister(m, r, x)
    ensures r.registers[x] == m.registers[x] + byte || r.registers[x] == m.registers[x] + byte - 256
  {
    var (result, _) := OverflowingAdd(byte, m.registers[x]);
    IncrementPc(m.(registers := m.registers[x := result]))
  }

  /** `load_reg`: 8xy0. */
  function LoadReg(m: Machine, x: Nibble, y: Nibble): (r: Machine)
    requires ValidMachine(m)
    ensures ValidMachine(r) && WritesRegister(m, r, x) && r.registers[x] == m.registers[y]
  {
    IncrementPc(m.(registers := m.registers[x := m.registers[y]]))
  }

  /** `or_reg`: 8xy1. Bit k of the new Vx is set when it is set in the old Vx or in Vy. */
  function OrReg(m: Machine, x: Nibble, y: Nibble): (r: Machine)
    requires ValidMachine(m)
    ensures ValidMachine(r) && WritesRegister(m, r, x)
    ensures forall k: nat :: k < 8 ==>
      BitOf(r.registers[x], k) == (BitOf(m.registers[x], k) || BitOf(m.registers[y], k))
  {
    IncrementPc(m.(registers := m.registers[x := Or(m.registers[x], m.registers[y])]))
  }

  /** `and_reg`: 8xy2. Bit k of the new Vx is set when it is set in both the old Vx and Vy. */
  function AndReg(m: Machine, x: Nibble, y: Nibble): (r: Machine)
    requires ValidMachine(m)
    ensures ValidMachine(r) && WritesRegister(m, r, x)
    ensures forall k: nat :: k < 8 ==>
      BitOf(r.registers[x], k) == (BitOf(m.registers[x], k) && BitOf(m.registers[y], k))
  {
    IncrementPc(m.(registers := m.registers[x := And(m.registers[x], m.registers[y])]))
  }

  /** `xor_reg`: 8xy3. Bit k of the new Vx is set when it is set in exactly one of the old Vx and Vy. */
  function XorReg(m: Machine, x: Nibble, y: Nibble): (r: Machine)
    requires ValidMachine(m)
    ensures ValidMachine(r) && WritesRegister(m, r, x)
    ensures forall k: nat :: k < 8 ==>
      BitOf(r.registers[x], k) == (BitOf(m.registers[x], k) != BitOf(m.registers[y], k))
  {
    IncrementPc(m.(registers := m.registers[x := Xor(m.registers[x], m.registers[y])]))
  }

  /**
   * `add_reg`: 8xy4. VF is the carry out of the 8-bit sum; it is written after
   * the sum, so for x = F the flag is all that remains.
   */
  function AddReg(m: Machine, x: Nibble, y: Nibble): (r: Machine)
    requires ValidMachine(m)
    ensures ValidMachine(r) && WritesRegisterAndFlag(m, r, x)
    ensures r.registers[Flag] == (if m.registers[x] as int + m.registers[y] > 255 then 1 else 0)
    ensures x != Flag ==> r.registers[x] as int + 256 * (r.registers[Flag] as int) == m.registers[x] as int + m.registers[y]
  {
    var (result, overflow) := OverflowingAdd(m.registers[x], m.registers[y]);
    var m1 := m.(registers := m.registers[x := result]);
    IncrementPc(m1.(registers := m1.registers[Flag := if overflow then 1 else 0]))
  }

  /** `sub_reg_with_dest`: Vdest := Vr1 - Vr2 wrapped, then VF := 1 when there was no borrow. */
  function SubRegWithDest(m: Machine, r1: Nibble, r2: Nibble, dest: Nibble): (r: Machine)
    requires ValidMachine(m)
    ensures ValidMachine(r) && WritesRegisterAndFlag(m, r, dest)
    ensures r.registers[Flag] == (if m.registers[r1] >= m.registers[r2] then 1 else 0)
    ensures dest != Flag ==> r.registers[dest] as int - 256 * (1 - r.registers[Flag] as int) == m.registers[r1] as int - m.registers[r2]
  {
    var (result, overflow) := OverflowingSub(m.registers[r1], m.registers[r2]);
    var m1 := m.(registers := m.registers[dest := result]);
    IncrementPc(m1.(registers := m1.registers[Flag := if overflow then 0 else 1]))
  }

  /** `sub_reg`: 8xy5, Vx := Vx - Vy. */
  function SubReg(m: Machine, x: Nibble, y: Nibble): (r: Machine)
    requires ValidMachine(m)
    ensures ValidMachine(r) && WritesRegisterAndFlag(m, r, x)
    ensures r.registers[Flag] == 1 <==> m.registers[x] >= m.registers[y]
    ensures x != Flag ==> r.registers[x] as int - 256 * (1 - r.registers[Flag] as int) == m.registers[x] as int - m.registers[y] as int
  {
    SubRegWithDest(m, x, y, x)
  }

  /** `subn_reg`: 8xy7, Vx := Vy - Vx. */
  function SubnReg(m: Machine, x: Nibble, y: Nibble): (r: Machine)
    requires ValidMachine(m)
    ensures ValidMachine(r) && WritesRegisterAndFlag(m, r, x)
    ensures r.registers[Flag] == 1 <==> m.registers[y] >= m.registers[x]
    ensures x != Flag ==> r.registers[x] as int - 256 * (1 - r.registers[Flag] as int) == m.registers[y] as int - m.registers[x] as int
  {
    SubRegWithDest(m, y, x, x)
  }

  /** `shr_reg`: 8xy6; VF := bit 0 of Vx, then Vx shifts right by one. */
  function ShrReg(m: Machine, x: Nibble): (r: Machine)
    requires ValidMachine(m)
    ensures ValidMachine(r) && WritesRegisterAndFlag(m, r, x)
    ensures x != Flag ==> r.registers[Flag] <= 1 && 2 * r.registers[x] as int + r.registers[Flag] == m.registers[x]
    ensures x == Flag ==> r.registers[Flag] == 0
  {
    var m1 := m.(registers := m.registers[Flag := m.registers[x] % 2]);
    IncrementPc(m1.(registers := m1.registers[x := m1.registers[x] / 2]))
  }

  /** `shl_reg`: 8xyE; VF := bit 7 of Vx, then Vx shifts left by one, dropping the top bit. */
  function ShlReg(m: Machine, x: Nibble): (r: Machine)
    requires ValidMachine(m)
    ensures ValidMachine(r) && WritesRegisterAndFlag(m, r, x)
    ensures x != Flag ==> r.registers[Flag] <= 1 && r.registers[x] as int + 256 * (r.registers[Flag] as int) == 2 * m.registers[x] as int
    ensures x == Flag ==> r.registers[Flag] == 2 * (m.registers[Flag] / 128)
  {
    var m1 := m.(registers := m.registers[Flag := m.registers[x] / 128]);
    IncrementPc(m1.(registers := m1.registers[x := (m1.registers[x] as int * 2) % 256]))
  }

  /** `set_i`: Annn. */
  function SetI(m: Machine, addr: u16): (r: Machine)
    ensures r.iRegister == addr && r.pc == m.pc + 2 && r.(iRegister := m.iRegister, pc := m.pc) == m
  {
    IncrementPc(m.(iRegister := addr))
  }

  /** `jump_v0`: Bnnn, to V0 + nnn. */
  function JumpV0(m: Machine, addr: nat): (r: Machine)
    requires ValidMachine(m)
    ensures r.pc == m.registers[0] + addr && r.(pc := m.pc) == m
  {
    Jump(m, m.registers[0] + addr)
  }

  /**
   * `load_and_rnd_imm`: Cxkk; `random` stands for the byte the random generator
   * draws. Vx keeps the bits of `random` that are set in kk, so no bit outside kk is set.
   */
  function LoadAndRndImm(m: Machine, x: Nibble, byte: u8, random: u8): (r: Machine)
    requires ValidMachine(m)
    ensures ValidMachine(r) && WritesRegister(m, r, x)
    ensures forall k: nat :: k < 8 ==> BitOf(r.registers[x], k) == (BitOf(random, k) && BitOf(byte, k))
  {
    IncrementPc(m.(registers := m.registers[x := And(random, byte)]))
  }

  /**
   * `draw_sprite`: Dxyn. XORs the `n` bytes at I onto the grid at (Vx, Vy);
   * VF := 1 exactly when a pixel went from on to off. Fails, changing
   * nothing, when the bytes would run past the end of memory.
   */
  function DrawSprite(m: Machine, f: Frame, x: Nibble, y: Nibble, n: Nibble): (r: Result<(Machine, Frame)>)
    requires ValidMachine(m) && ValidFrame(f)
    ensures r.Err? <==> m.iRegister + n > MemorySize
    ensures r.Err? ==> r.error == SpriteOutOfBounds(n, m.iRegister)
    ensures r.Ok? ==> var (m', f') := r.value;
      && ValidMachine(m') && WritesRegister(m, m', Flag) && ValidFrame(f') && f'.isDirty
      && (m'.registers[Flag] == 0 || m'.registers[Flag] == 1)
  {
    if m.iRegister + n > MemorySize then Err(SpriteOutOfBounds(n, m.iRegister))
    else
      var vx, vy := m.registers[x], m.registers[y];
      var sprite := m.memory[m.iRegister .. m.iRegister + n];
      var collided := Collides(f.buffer, sprite, vx, vy);
      Ok((IncrementPc(m.(registers := m.registers[Flag := if collided then 1 else 0])),
          Frame(Blit(f.buffer, sprite, vx, vy), true)))
  }

  /** After a Dxyn that succeeds, VF is 1 exactly when some pixel went from on to off. */
  lemma DrawSpriteFlagIffErased(m: Machine, f: Frame, x: Nibble, y: Nibble, n: Nibble)
    requires ValidMachine(m) && ValidFrame(f) && DrawSprite(m, f, x, y, n).Ok?
    ensures var (m', f') := DrawSprite(m, f, x, y, n).value;
      m'.registers[Flag] == 1 <==>
        exists row, col :: 0 <= row < Height && 0 <= col < Width && f.buffer[row][col] && !f'.buffer[row][col]
  {
    var sprite := m.memory[m.iRegister .. m.iRegister + n];
    CollidesIffTurnedOff(f.buffer, sprite, m.registers[x], m.registers[y]);
  }

  /** `skip_keydown`: Ex9E, skips when the key whose code is in Vx is down. */
  function SkipKeydown(m: Machine, x: Nibble, keys: map<Key, bool>): (r: Machine)
    requires ValidMachine(m) && Complete(keys)
    ensures SkipsWhen(m, r, m.registers[x] <= 15 && keys[AllKeys[m.registers[x]]])
  {
    var m1 := if IsKeyPressed(keys, m.registers[x]) then IncrementPc(m) else m;
    IncrementPc(m1)
  }

  /** `skip_not_keydown`: ExA1, skips when that key is up (or Vx is no key code). */
  function SkipNotKeydown(m: Machine, x: Nibble, keys: map<Key, bool>): (r: Machine)
    requires ValidMachine(m) && Complete(keys)
    ensures SkipsWhen(m, r, m.registers[x] > 15 || !keys[AllKeys[m.registers[x]]])
  {
    var m1 := if !IsKeyPressed(keys, m.registers[x]) then IncrementPc(m) else m;
    IncrementPc(m1)
  }

  /** `load_delay_timer`: Fx07. */
  function LoadDelayTimer(m: Machine, x: Nibble): (r: Machine)
    requires ValidMachine(m)
    ensures ValidMachine(r) && WritesRegister(m, r, x) && r.registers[x] == m.delayRegister
  {
    IncrementPc(m.(registers := m.registers[x := m.delayRegister]))
  }

  /** `set_delay_timer`: Fx15. */
  function SetDelayTimer(m: Machine, x: Nibble): (r: Machine)
    requires ValidMachine(m)
    ensures r.delayRegister == m.registers[x] && r.pc == m.pc + 2
    ensures r.(delayRegister := m.delayRegister, pc := m.pc) == m
  {
    IncrementPc(m.(delayRegister := m.registers[x]))
  }

  /** `set_sound_timer`: Fx18. */
  function SetSoundTimer(m: Machine, x: Nibble): (r: Machine)
    requires ValidMachine(m)
    ensures r.soundRegister == m.registers[x] && r.pc == m.pc + 2
    ensures r.(soundRegister := m.soundRegister, pc := m.pc) == m
  {
    IncrementPc(m.(soundRegister := m.registers[x]))
  }

  /**
   * `wait_keypress`: Fx0A. With a key down, Vx := the smallest pressed code and
   * execution moves on; with none, nothing changes and the instruction runs again.
   */
  function WaitKeypress(m: Machine, x: Nibble, keys: map<Key, bool>): (r: Machine)
    requires ValidMachine(m) && Complete(keys)
    ensures (forall c: u8 :: c <= 15 ==> !IsKeyPressed(keys, c)) ==> r == m
    ensures (exists c: u8 :: c <= 15 && IsKeyPressed(keys, c)) ==>
      && ValidMachine(r) && WritesRegister(m, r, x)
      && r.registers[x] <= 15 && IsKeyPressed(keys, r.registers[x])
      && forall c: u8 :: c < r.registers[x] ==> !IsKeyPressed(keys, c)
  {
    match FindPressed(keys, 0)
    case Some(code) => IncrementPc(m.(registers := m.registers[x := code]))
    case None => m
  }

  /** `add_i_reg`: Fx1E; I := I + Vx wrapping at 16 bits. */
  function AddIReg(m: Machine, x: Nibble): (r: Machine)
    requires ValidMachine(m)
    ensures r.iRegister == m.iRegister + m.registers[x] || r.iRegister == m.iRegister + m.registers[x] - 0x1_0000
    ensures r.pc == m.pc + 2 && r.(iRegister := m.iRegister, pc := m.pc) == m
  {
    IncrementPc(m.(iRegister := (m.iRegister + m.registers[x]) % 0x1_0000))
  }

  /** `load_sprite_address`: Fx29; I := the address of the glyph of digit Vx. */
  function LoadSpriteAddress(m: Machine, x: Nibble): (r: Machine)
    requires ValidMachine(m)
    ensures r.iRegister == SpriteSize * m.registers[x]
    ensures m.registers[x] <= 15 ==> r.iRegister + SpriteSize <= |Font|
    ensures r.pc == m.pc + 2 && r.(iRegister := m.iRegister, pc := m.pc) == m
  {
    var digit := m.registers[x];
    IncrementPc(m.(iRegister := digit * SpriteSize))
  }

  /**
   * `store_bcd_representation`: Fx33; the hundreds, tens and units digits of
   * Vx go to I, I+1, I+2. Fails, changing nothing, for I >= 4094.
   */
  function StoreBcdRepresentation(m: Machine, x: Nibble): (r: Result<Machine>)
    requires ValidMachine(m)
    ensures r.Err? <==> m.iRegister >= MemorySize - 2
    ensures r.Err? ==> r.error == BcdOutOfBounds(m.iRegister)
    ensures r.Ok? ==> var m', i := r.value, m.iRegister;
      && ValidMachine(m') && m'.pc == m.pc + 2
      && m'.(memory := m.memory, pc := m.pc) == m
      && m'.memory[i] < 10 && m'.memory[i + 1] < 10 && m'.memory[i + 2] < 10
      && 100 * m'.memory[i] as int + 10 * m'.memory[i + 1] as int + m'.memory[i + 2] == m.registers[x]
      && forall a :: 0 <= a < MemorySize && !(i <= a <= i + 2) ==> m'.memory[a] == m.memory[a]
  {
    var i := m.iRegister;
    if i >= MemorySize - 2 then Err(BcdOutOfBounds(i))
    else
      var value := m.registers[x];
      var memory := m.memory[i + 2 := value % 10];
      var value := value / 10;
      var memory := memory[i + 1 := value % 10];
      var value := value / 10;
      var memory := memory[i := value % 10];
      Ok(IncrementPc(m.(memory := memory)))
  }

  /**
   * `store_registers`: Fx55; V0..Vx go to memory at I..I+x. Fails, changing
   * nothing, when I + x is past the end of memory.
   */
  function StoreRegisters(m: Machine, x: Nibble): (r: Result<Machine>)
    requires ValidMachine(m)
    ensures r.Err? <==> m.iRegister + x >= MemorySize
    ensures r.Err? ==> r.error == StoreOutOfBounds(x + 1, m.iRegister)
    ensures r.Ok? ==> var m', i := r.value, m.iRegister;
      && ValidMachine(m') && m'.pc == m.pc + 2
      && m'.(memory := m.memory, pc := m.pc) == m
      && (forall j :: 0 <= j <= x ==> m'.memory[i + j] == m.registers[j])
      && forall a :: 0 <= a < MemorySize && !(i <= a <= i + x) ==> m'.memory[a] == m.memory[a]
  {
    var i := m.iRegister;
    if i + x >= MemorySize then Err(StoreOutOfBounds(x + 1, i))
    else Ok(IncrementPc(m.(memory := m.memory[..i] + m.registers[..x + 1] + m.memory[i + x + 1..])))
  }

  /**
   * `read_registers`: Fx65; memory at I..I+x goes to V0..Vx. Fails, changing
   * nothing, when I + x is past the end of memory.
   */
  function ReadRegisters(m: Machine, x: Nibble): (r: Result<Machine>)
    requires ValidMachine(m)
    ensures r.Err? <==> m.iRegister + x >= MemorySize
    ensures r.Err? ==> r.error == ReadOutOfBounds(x + 1, m.iRegister)
    ensures r.Ok? ==> var m', i := r.value, m.iRegister;
      && ValidMachine(m') && m'.pc == m.pc + 2
      && m'.(registers := m.registers, pc := m.pc) == m
      && (forall j :: 0 <= j <= x ==> m'.registers[j] == m.memory[i + j])
      && forall j :: x < j < 16 ==> m'.registers[j] == m.registers[j]
  {
    var i := m.iRegister;
    if i + x >= MemorySize then Err(ReadOutOfBounds(x + 1, i))
    else Ok(IncrementPc(m.(registers := m.memory[i .. i + x + 1] + m.registers[x + 1..])))
  }

  /** `clear_screen`: 00E0; every pixel off, the buffer marked dirty. */
  function ClearScreen(m: Machine, f: Frame): (r: (Machine, Frame))
    ensures r.0 == IncrementPc(m) && ValidFrame(r.1) && r.1.isDirty
    ensures forall row, col :: 0 <= row < Height && 0 <= col < Width ==> !r.1.buffer[row][col]
  {
    (IncrementPc(m), Frame(Blank(), true))
  }

  /** `noop`: the rest of the 0nnn family. */
  function Noop(m: Machine): (r: Machine)
    ensures r.pc == m.pc + 2 && r.(pc := m.pc) == m
  {
    IncrementPc(m)
  }

  // ---------------------------------------------------------------------------
  // Decoding and the tick

  /** The four nibbles `a x y b` of an instruction word, its low 12 bits and its low byte. */
  datatype Fields = Fields(a: Nibble, x: Nibble, y: Nibble, b: Nibble, nnn: u16, low: u8)

  /** The instruction word stored as `high`, `low` (big-endian). */
  function Word(high: u8, low: u8): u16
  {
    high * 0x100 + low
  }

  /** The nibble split of `tick`, byte by byte. */
  function Decode(high: u8, low: u8): (d: Fields)
    ensures high == d.a * 0x10 + d.x && low == d.y * 0x10 + d.b
    ensures d.nnn == d.x * 0x100 + low && d.low == low
  {
    Fields(high / 0x10, high % 0x10, low / 0x10, low % 0x10, (high % 0x10) * 0x100 + low, low)
  }

  /** The split fields are the four nibbles, the low 12 bits and the low byte of the 16-bit word. */
  lemma DecodeFields(high: u8, low: u8)
    ensures var w, d := Word(high, low), Decode(high, low);
      && d.a == w / 0x1000 && d.x == w / 0x100 % 0x10 && d.y == w / 0x10 % 0x10 && d.b == w % 0x10
      && d.nnn == w % 0x1000 && d.low == w % 0x100
  {
    var w := Word(high, low);
    var a, x, y, b := high / 0x10, high % 0x10, low / 0x10, low % 0x10;
    QuotientRemainder(high, 0x10, a, x);
    QuotientRemainder(low, 0x10, y, b);
    QuotientRemainder(w, 0x1000, a, x * 0x100 + low);
    QuotientRemainder(w, 0x100, high, low);
    QuotientRemainder(w, 0x10, high * 0x10 + y, b);
    QuotientRemainder(high * 0x10 + y, 0x10, high, y);
  }

  /** `n` is `q` times `d` plus `r` with `r` below `d`: `q` and `r` are its quotient and remainder (for the nibble, byte and 12-bit divisors). */
  lemma QuotientRemainder(n: int, d: int, q: int, r: int)
    requires d == 0x10 || d == 0x100 || d == 0x1000
    requires 0 <= r < d && n == q * d + r
    ensures n / d == q && n % d == r
  {
    if d == 0x10 {
      assert n == q * 0x10 + r;
    } else if d == 0x100 {
      assert n == q * 0x100 + r;
    } else {
      assert n == q * 0x1000 + r;
    }
  }

  /** The outcome of one tick: the status `tick` returns and the state it leaves. */
  datatype TickResult = TickResult(status: Result<()>, machine: Machine, frame: Frame)

  function Done(m: Machine, f: Frame): TickResult
  {
    TickResult(Ok(()), m, f)
  }

  /** A handler that may fail: on failure the state before it is kept. */
  function Checked(r: Result<Machine>, m: Machine, f: Frame): TickResult
  {
    match r
    case Ok(m') => TickResult(Ok(()), m', f)
    case Err(e) => TickResult(Err(e), m, f)
  }

  /** The `match` of `tick`: the first pattern that fits the nibbles picks the handler. */
  function Execute(m: Machine, f: Frame, keys: map<Key, bool>, random: u8, d: Fields, opcode: u16): (t: TickResult)
    requires ValidMachine(m) && ValidFrame(f) && Complete(keys) && m.pc + 1 < MemorySize
    ensures ValidMachine(t.machine) && ValidFrame(t.frame)
  {
    match (d.a, d.x, d.y, d.b)
    case (0, 0, 0xe, 0) => var (m', f') := ClearScreen(m, f); Done(m', f')
    case (0, 0, 0xe, 0xe) => Checked(Ret(m), m, f)
    case (0, _, _, _) => Done(Noop(m), f)
    case (1, _, _, _) => Done(Jump(m, d.nnn), f)
    case (2, _, _, _) => Checked(Call(m, d.nnn), m, f)
    case (3, _, _, _) => Done(SkipRegImmEq(m, d.x, d.low), f)
    case (4, _, _, _) => Done(SkipRegImmNeq(m, d.x, d.low), f)
    case (5, _, _, 0) => Done(SkipRegRegEq(m, d.x, d.y), f)
    case (6, _, _, _) => Done(LoadImm(m, d.x, d.low), f)
    case (7, _, _, _) => Done(AddImm(m, d.x, d.low), f)
    case (8, _, _, 0) => Done(LoadReg(m, d.x, d.y), f)
    case (8, _, _, 1) => Done(OrReg(m, d.x, d.y), f)
    case (8, _, _, 2) => Done(AndReg(m, d.x, d.y), f)
    case (8, _, _, 3) => Done(XorReg(m, d.x, d.y), f)
    case (8, _, _, 4) => Done(AddReg(m, d.x, d.y), f)
    case (8, _, _, 5) => Done(SubReg(m, d.x, d.y), f)
    case (8, _, _, 6) => Done(ShrReg(m, d.x), f)
    case (8, _, _, 7) => Done(SubnReg(m, d.x, d.y), f)
    case (8, _, _, 0xe) => Done(ShlReg(m, d.x), f)
    case (9, _, _, 0) => Done(SkipRegRegNeq(m, d.x, d.y), f)
    case (0xa, _, _, _) => Done(SetI(m, d.nnn), f)
    case (0xb, _, _, _) => Done(JumpV0(m, d.nnn), f)
    case (0xc, _, _, _) => Done(LoadAndRndImm(m, d.x, d.low, random), f)
    case (0xd, _, _, _) =>
      (match DrawSprite(m, f, d.x, d.y, d.b)
       case Ok((m', f')) => Done(m', f')
       case Err(e) => TickResult(Err(e), m, f))
    case (0xe, _, 9, 0xe) => Done(SkipKeydown(m, d.x, keys), f)
    case (0xe, _, 0xa, 1) => Done(SkipNotKeydown(m, d.x, keys), f)
    case (0xf, _, 0, 7) => Done(LoadDelayTimer(m, d.x), f)
    case (0xf, _, 0, 0xa) => Done(WaitKeypress(m, d.x, keys), f)
    case (0xf, _, 1, 5) => Done(SetDelayTimer(m, d.x), f)
    case (0xf, _, 1, 8) => Done(SetSoundTimer(m, d.x), f)
    case (0xf, _, 1, 0xe) => Done(AddIReg(m, d.x), f)
    case (0xf, _, 2, 9) => Done(LoadSpriteAddress(m, d.x), f)
    case (0xf, _, 3, 3) => Checked(StoreBcdRepresentation(m, d.x), m, f)
    case (0xf, _, 5, 5) => Checked(StoreRegisters(m, d.x), m, f)
    case (0xf, _, 6, 5) => Checked(ReadRegisters(m, d.x), m, f)
    case _ => TickResult(Err(InvalidInstruction(opcode, m.pc)), m, f)
  }

  /** The timer update at the start of a tick: each timer that is not yet 0 counts down by one. */
  function DecrementTimers(m: Machine, decrement: bool): (r: Machine)
    ensures r.delayRegister == if decrement && m.delayRegister > 0 then m.delayRegister - 1 else m.delayRegister
    ensures r.soundRegister == if decrement && m.soundRegister > 0 then m.soundRegister - 1 else m.soundRegister
    ensures r.(delayRegister := m.delayRegister, soundRegister := m.soundRegister) == m
  {
    if !decrement then m
    else
      var m1 := if m.delayRegister > 0 then m.(delayRegister := m.delayRegister - 1) else m;
      if m1.soundRegister > 0 then m1.(soundRegister := m1.soundRegister - 1) else m1
  }

  /**
   * `tick`: bounds-check pc, count the timers down when asked, fetch the two
   * bytes at pc, decode and execute. `random` is the byte a Cxkk would draw.
   */
  function Tick(m: Machine, keys: map<Key, bool>, f: Frame, decrementTimers: bool, random: u8): (t: TickResult)
    requires ValidMachine(m) && ValidFrame(f) && Complete(keys)
    ensures ValidMachine(t.machine) && ValidFrame(t.frame)
  {
    if m.pc + 1 >= MemorySize then TickResult(Err(PcOutOfBounds(m.pc)), m, f)
    else
      var m1 := DecrementTimers(m, decrementTimers);
      var high, low := m1.memory[m1.pc], m1.memory[m1.pc + 1];
      Execute(m1, f, keys, random, Decode(high, low), Word(high, low))
  }

  // ---------------------------------------------------------------------------
  // Loading a program

  /** `CPU::new`: the given memory, pc at the load address, everything else zero. */
  function Initial(memory: seq<u8>): (r: Machine)
    ensures |memory| == MemorySize ==> ValidMachine(r)
    ensures r.pc == LoadAddress && r.memory == memory && r.iRegister == 0
    ensures r.delayRegister == 0 && r.soundRegister == 0 && r.stackPointer == 0
    ensures forall j :: 0 <= j < |r.registers| ==> r.registers[j] == 0
    ensures forall j :: 0 <= j < |r.stack| ==> r.stack[j] == 0
  {
    Machine(LoadAddress, memory, Zeros(16), 0, 0, 0, 0, seq(MaxStackDepth, _ => 0))
  }

  /**
   * `from_file` without the file: font at 0, zeros up to 0x200, the program,
   * zeros to the end. An empty or oversized program is an error.
   */
  function Load(program: seq<u8>): (r: Result<Machine>)
    ensures r.Err? <==> |program| == 0 || |program| > MaxProgramSize
    ensures |program| == 0 ==> r == Err(EmptyProgram)
    ensures |program| > MaxProgramSize ==> r == Err(ProgramTooLarge(LoadAddress + |program|))
    ensures r.Ok? ==> var m := r.value;
      && ValidMachine(m) && m.pc == LoadAddress && m.iRegister == 0
      && m.delayRegister == 0 && m.soundRegister == 0 && m.stackPointer == 0
      && (forall j :: 0 <= j < 16 ==> m.registers[j] == 0 && m.stack[j] == 0)
      && (forall a :: 0 <= a < MemorySize ==>
            m.memory[a] == if a < |Font| then Font[a]
                           else if LoadAddress <= a < LoadAddress + |program| then program[a - LoadAddress]
                           else 0)
  {
    var buffer := Font + Zeros(LoadAddress - |Font|) + program;
    if |buffer| == LoadAddress then Err(EmptyProgram)
    else if |buffer| > MemorySize then Err(ProgramTooLarge(|buffer|))
    else Ok(Initial(buffer + Zeros(MemorySize - |buffer|)))
  }
}
