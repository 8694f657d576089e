/**
 * Properties of the CHIP-8 machine that relate several instructions or a
 * whole tick: returns that undo calls, block transfers that undo each
 * other, sprites drawn twice, the order of the tick, the decoder's set of
 * known instructions, and short programs run from a freshly loaded machine.
 */
module Properties {
  import opened Bytes
  import opened Wrappers
  import opened Input
  import opened Display
  import opened Sprite
  import opened Semantics

  // ---------------------------------------------------------------------------
  // Subroutines

  /**
   * 00EE after 2nnn comes back to the instruction after the call with the
   * stack depth restored; only the stack slot the call used keeps the
   * return address.
   */
  lemma CallThenRet(m: Machine, addr: nat)
    requires ValidMachine(m) && m.pc + 2 < 0x1_0000 && m.stackPointer < MaxStackDepth
    ensures Call(m, addr).Ok?
    ensures Ret(Call(m, addr).value) == Ok(m.(pc := m.pc + 2, stack := m.stack[m.stackPointer := m.pc + 2]))
  {
    var c := Call(m, addr).value;
    assert c.stack[c.stackPointer - 1] == m.pc + 2;
  }

  // ---------------------------------------------------------------------------
  // Registers and memory

  /** Fx65 right after Fx55 with the same x and I reads back what was stored: the registers do not change. */
  lemma StoreThenRead(m: Machine, x: Nibble)
    requires ValidMachine(m) && m.iRegister + x < MemorySize
    ensures StoreRegisters(m, x).Ok?
    ensures var s := StoreRegisters(m, x).value;
      ReadRegisters(s, x) == Ok(s.(pc := s.pc + 2))
  {
    var s := StoreRegisters(m, x).value;
    var i := m.iRegister;
    var r := ReadRegisters(s, x).value;
    assert r.registers == s.registers by {
      forall j | 0 <= j < 16
        ensures r.registers[j] == s.registers[j]
      {
        if j <= x {
          assert r.registers[j] == s.memory[i + j];
        }
      }
    }
  }

  /** Fx55 right after Fx65 with the same x and I writes back what was read: memory does not change. */
  lemma ReadThenStore(m: Machine, x: Nibble)
    requires ValidMachine(m) && m.iRegister + x < MemorySize
    ensures ReadRegisters(m, x).Ok?
    ensures var r := ReadRegisters(m, x).value;
      StoreRegisters(r, x) == Ok(r.(pc := r.pc + 2))
  {
    var r := ReadRegisters(m, x).value;
    var i := m.iRegister;
    var s := StoreRegisters(r, x).value;
    assert s.memory == r.memory by {
      forall a | 0 <= a < MemorySize
        ensures s.memory[a] == r.memory[a]
      {
        if i <= a <= i + x {
          assert s.memory[a] == r.registers[a - i];
        }
      }
    }
  }

  /** 8xy1 a second time with the same registers (x and y distinct) changes nothing but pc. */
  lemma OrRegTwice(m: Machine, x: Nibble, y: Nibble)
    requires ValidMachine(m) && x != y
    ensures var m1 := OrReg(m, x, y); OrReg(m1, x, y) == m1.(pc := m1.pc + 2)
  {
    var m1 := OrReg(m, x, y);
    OrTwice(m.registers[x], m.registers[y]);
    assert OrReg(m1, x, y).registers == m1.registers;
  }

  /** 8xy2 a second time with the same registers (x and y distinct) changes nothing but pc. */
  lemma AndRegTwice(m: Machine, x: Nibble, y: Nibble)
    requires ValidMachine(m) && x != y
    ensures var m1 := AndReg(m, x, y); AndReg(m1, x, y) == m1.(pc := m1.pc + 2)
  {
    var m1 := AndReg(m, x, y);
    AndTwice(m.registers[x], m.registers[y]);
    assert AndReg(m1, x, y).registers == m1.registers;
  }

  /** 8xx3 (a register XOR-ed with itself) clears that register and nothing else. */
  lemma XorRegSelf(m: Machine, x: Nibble)
    requires ValidMachine(m)
    ensures XorReg(m, x, x) == m.(registers := m.registers[x := 0], pc := m.pc + 2)
  {
    XorSelf(m.registers[x]);
  }

  /** 8xy3 twice with the same registers (x and y distinct) restores Vx; only pc has moved. */
  lemma XorRegTwice(m: Machine, x: Nibble, y: Nibble)
    requires ValidMachine(m) && x != y
    ensures XorReg(XorReg(m, x, y), x, y) == m.(pc := m.pc + 4)
  {
    var m2 := XorReg(XorReg(m, x, y), x, y);
    XorTwice(m.registers[x], m.registers[y]);
    assert m2.registers == m.registers;
  }

  /** After Fx29 for a digit, I points at that digit's five glyph rows when the font is in memory. */
  lemma FontGlyph(m: Machine, x: Nibble)
    requires ValidMachine(m) && m.registers[x] <= 15 && m.memory[..|Font|] == Font
    ensures var m', d := LoadSpriteAddress(m, x), m.registers[x];
      m'.memory[m'.iRegister .. m'.iRegister + SpriteSize] == Font[SpriteSize * d .. SpriteSize * d + SpriteSize]
  {
    var m', d := LoadSpriteAddress(m, x), m.registers[x];
    assert m'.memory[..|Font|] == Font;
    assert m'.memory[m'.iRegister .. m'.iRegister + SpriteSize] == m'.memory[..|Font|][SpriteSize * d .. SpriteSize * d + SpriteSize];
  }

  /** A loaded machine holds the font at address 0. */
  lemma LoadedFont(program: seq<u8>)
    requires Load(program).Ok?
    ensures Load(program).value.memory[..|Font|] == Font
  {
    var m := Load(program).value;
    forall a | 0 <= a < |Font|
      ensures m.memory[a] == Font[a]
    {
    }
  }

  // ---------------------------------------------------------------------------
  // Sprites

  /** After a Dxyn that succeeds, bit 7 - j of sprite row k decides whether pixel ((Vy + k) mod 32, (Vx + j) mod 64) flipped. */
  lemma DrawSpritePixel(m: Machine, f: Frame, x: Nibble, y: Nibble, n: Nibble, k: nat, j: nat)
    requires ValidMachine(m) && ValidFrame(f) && DrawSprite(m, f, x, y, n).Ok? && k < n && j < 8
    ensures var f', r, c := DrawSprite(m, f, x, y, n).value.1, (m.registers[y] + k) % Height, (m.registers[x] + j) % Width;
            f'.buffer[r][c] == (f.buffer[r][c] != SpriteBit(m.memory[m.iRegister + k], j))
  {
    var sprite := m.memory[m.iRegister .. m.iRegister + n];
    BlitPixel(f.buffer, sprite, m.registers[x], m.registers[y], k, j);
  }

  /** A pixel that a Dxyn changes is one a set bit of the sprite lands on. */
  lemma DrawSpriteChangesOnlyDrawnPixels(m: Machine, f: Frame, x: Nibble, y: Nibble, n: Nibble, r: nat, c: nat)
    requires ValidMachine(m) && ValidFrame(f) && DrawSprite(m, f, x, y, n).Ok? && r < Height && c < Width
    requires DrawSprite(m, f, x, y, n).value.1.buffer[r][c] != f.buffer[r][c]
    ensures var sprite := m.memory[m.iRegister .. m.iRegister + n];
      exists k, j :: 0 <= k < n && 0 <= j < 8 && SpriteBit(sprite[k], j)
                  && r == (m.registers[y] + k) % Height && c == (m.registers[x] + j) % Width
  {
    var sprite := m.memory[m.iRegister .. m.iRegister + n];
    BlitChangesOnlyDrawnPixels(f.buffer, sprite, m.registers[x], m.registers[y], r, c);
  }

  /**
   * The same Dxyn twice (neither coordinate in VF, which the first draw
   * overwrites) restores every pixel; the second draw collides exactly when
   * the sprite has a set bit on screen.
   */
  lemma DrawSpriteTwice(m: Machine, f: Frame, x: Nibble, y: Nibble, n: Nibble)
    requires ValidMachine(m) && ValidFrame(f) && DrawSprite(m, f, x, y, n).Ok? && x != Flag && y != Flag
    ensures var (m1, f1) := DrawSprite(m, f, x, y, n).value;
      DrawSprite(m1, f1, x, y, n).Ok? && DrawSprite(m1, f1, x, y, n).value.1.buffer == f.buffer
  {
    var (m1, f1) := DrawSprite(m, f, x, y, n).value;
    var sprite := m.memory[m.iRegister .. m.iRegister + n];
    assert m1.memory[m1.iRegister .. m1.iRegister + n] == sprite;
    assert m1.registers[x] == m.registers[x] && m1.registers[y] == m.registers[y];
    BlitTwice(f.buffer, sprite, m.registers[x], m.registers[y]);
  }

  // ---------------------------------------------------------------------------
  // The tick

  /** The instruction words `tick` has a handler for, read off the word's nibbles. */
  predicate KnownOpcode(w: u16)
  {
    var a, b, kk := w / 0x1000, w % 0x10, w % 0x100;
    || a in {0, 1, 2, 3, 4, 6, 7, 0xa, 0xb, 0xc, 0xd}
    || ((a == 5 || a == 9) && b == 0)
    || (a == 8 && (b <= 7 || b == 0xe))
    || (a == 0xe && (kk == 0x9e || kk == 0xa1))
    || (a == 0xf && kk in {0x07, 0x0a, 0x15, 0x18, 0x1e, 0x29, 0x33, 0x55, 0x65})
  }

  /** A handler that fails leaves the machine and the frame as they were. */
  lemma ExecuteFailureKeepsState(m: Machine, f: Frame, keys: map<Key, bool>, random: u8, high: u8, low: u8)
    requires ValidMachine(m) && ValidFrame(f) && Complete(keys) && m.pc + 1 < MemorySize
    requires Execute(m, f, keys, random, Decode(high, low), Word(high, low)).status.Err?
    ensures var t := Execute(m, f, keys, random, Decode(high, low), Word(high, low));
      t.machine == m && t.frame == f
  {
  }

  /** Exactly the words outside the known set are reported as invalid instructions. */
  lemma ExecuteInvalidIffUnknown(m: Machine, f: Frame, keys: map<Key, bool>, random: u8, high: u8, low: u8)
    requires ValidMachine(m) && ValidFrame(f) && Complete(keys) && m.pc + 1 < MemorySize
    ensures (Execute(m, f, keys, random, Decode(high, low), Word(high, low)).status
             == Err(InvalidInstruction(Word(high, low), m.pc))) <==> !KnownOpcode(Word(high, low))
  {
    DecodeFields(high, low);
  }

  /** Only 00E0 and Dxyn touch the display buffer. */
  lemma ExecuteFrame(m: Machine, f: Frame, keys: map<Key, bool>, random: u8, high: u8, low: u8)
    requires ValidMachine(m) && ValidFrame(f) && Complete(keys) && m.pc + 1 < MemorySize
    ensures var t, w := Execute(m, f, keys, random, Decode(high, low), Word(high, low)), Word(high, low);
      w != 0x00e0 && w / 0x1000 != 0xd ==> t.frame == f
  {
    DecodeFields(high, low);
  }

  /** Only Fx15 writes the delay timer and only Fx18 the sound timer, each with Vx. */
  lemma ExecuteTimers(m: Machine, f: Frame, keys: map<Key, bool>, random: u8, high: u8, low: u8)
    requires ValidMachine(m) && ValidFrame(f) && Complete(keys) && m.pc + 1 < MemorySize
    ensures var t, w := Execute(m, f, keys, random, Decode(high, low), Word(high, low)), Word(high, low);
      && t.machine.delayRegister == (if w / 0x1000 == 0xf && w % 0x100 == 0x15 then m.registers[w / 0x100 % 0x10] else m.delayRegister)
      && t.machine.soundRegister == (if w / 0x1000 == 0xf && w % 0x100 == 0x18 then m.registers[w / 0x100 % 0x10] else m.soundRegister)
  {
    DecodeFields(high, low);
    ExecuteDelay(m, f, keys, random, Decode(high, low), Word(high, low));
    ExecuteSound(m, f, keys, random, Decode(high, low), Word(high, low));
  }

  /** On decoded fields: only Fx15 writes the delay timer. */
  lemma ExecuteDelay(m: Machine, f: Frame, keys: map<Key, bool>, random: u8, d: Fields, opcode: u16)
    requires ValidMachine(m) && ValidFrame(f) && Complete(keys) && m.pc + 1 < MemorySize
    ensures Execute(m, f, keys, random, d, opcode).machine.delayRegister
      == if d.a == 0xf && d.y == 1 && d.b == 5 then m.registers[d.x] else m.delayRegister
  {
  }

  /** On decoded fields: only Fx18 writes the sound timer. */
  lemma ExecuteSound(m: Machine, f: Frame, keys: map<Key, bool>, random: u8, d: Fields, opcode: u16)
    requires ValidMachine(m) && ValidFrame(f) && Complete(keys) && m.pc + 1 < MemorySize
    ensures Execute(m, f, keys, random, d, opcode).machine.soundRegister
      == if d.a == 0xf && d.y == 1 && d.b == 8 then m.registers[d.x] else m.soundRegister
  {
  }

  /**
   * On decoded fields with first nibble 0: 00E0 clears the screen and 00EE
   * returns, both ahead of the 0nnn pattern; every other 0nnn is a no-op.
   */
  lemma ExecuteSystemWords(m: Machine, f: Frame, keys: map<Key, bool>, random: u8, d: Fields, opcode: u16)
    requires ValidMachine(m) && ValidFrame(f) && Complete(keys) && m.pc + 1 < MemorySize
    requires d.a == 0
    ensures var t, isClear, isRet := Execute(m, f, keys, random, d, opcode),
                                     d.x == 0 && d.y == 0xe && d.b == 0, d.x == 0 && d.y == 0xe && d.b == 0xe;
      && (isClear ==> t == Done(ClearScreen(m, f).0, ClearScreen(m, f).1))
      && (isRet ==> t == Checked(Ret(m), m, f))
      && (!isClear && !isRet ==> t == Done(Noop(m), f))
  {
  }

  /** With pc past the last full instruction the tick fails at once: not even the timers move. */
  lemma TickPcOutOfBounds(m: Machine, keys: map<Key, bool>, f: Frame, decrementTimers: bool, random: u8)
    requires ValidMachine(m) && ValidFrame(f) && Complete(keys) && m.pc + 1 >= MemorySize
    ensures Tick(m, keys, f, decrementTimers, random) == TickResult(Err(PcOutOfBounds(m.pc)), m, f)
  {
  }

  /** The word a tick at pc executes. */
  function Fetched(m: Machine): u16
    requires ValidMachine(m) && m.pc + 1 < MemorySize
  {
    Word(m.memory[m.pc], m.memory[m.pc + 1])
  }

  /** With pc in bounds a tick counts the timers down and executes the word at pc. */
  lemma TickExecutes(m: Machine, keys: map<Key, bool>, f: Frame, decrementTimers: bool, random: u8)
    requires ValidMachine(m) && ValidFrame(f) && Complete(keys) && m.pc + 1 < MemorySize
    ensures var m1, high, low := DecrementTimers(m, decrementTimers), m.memory[m.pc], m.memory[m.pc + 1];
      Tick(m, keys, f, decrementTimers, random) == Execute(m1, f, keys, random, Decode(high, low), Word(high, low))
  {
    var m1 := DecrementTimers(m, decrementTimers);
    assert m1.memory == m.memory && m1.pc == m.pc;
  }

  /**
   * A tick that fails with pc in bounds keeps the timers it already counted
   * down and nothing else changes; the invalid instructions are exactly the
   * words outside the known set.
   */
  lemma TickFailure(m: Machine, keys: map<Key, bool>, f: Frame, decrementTimers: bool, random: u8)
    requires ValidMachine(m) && ValidFrame(f) && Complete(keys) && m.pc + 1 < MemorySize
    ensures var t := Tick(m, keys, f, decrementTimers, random);
      t.status.Err? ==> t.machine == DecrementTimers(m, decrementTimers) && t.frame == f
    ensures (Tick(m, keys, f, decrementTimers, random).status == Err(InvalidInstruction(Fetched(m), m.pc)))
            <==> !KnownOpcode(Fetched(m))
  {
    var m1 := DecrementTimers(m, decrementTimers);
    var high, low := m1.memory[m1.pc], m1.memory[m1.pc + 1];
    if Tick(m, keys, f, decrementTimers, random).status.Err? {
      ExecuteFailureKeepsState(m1, f, keys, random, high, low);
    }
    ExecuteInvalidIffUnknown(m1, f, keys, random, high, low);
  }

  /**
   * The timers count down (`DecrementTimers`) before the instruction runs, so
   * Fx15 and Fx18 set a timer to Vx undiminished; every other instruction
   * leaves the counted-down value.
   */
  lemma TickTimers(m: Machine, keys: map<Key, bool>, f: Frame, decrementTimers: bool, random: u8)
    requires ValidMachine(m) && ValidFrame(f) && Complete(keys) && m.pc + 1 < MemorySize
    ensures var t, m1, d := Tick(m, keys, f, decrementTimers, random), DecrementTimers(m, decrementTimers),
        Decode(m.memory[m.pc], m.memory[m.pc + 1]);
      && t.machine.delayRegister == (if d.a == 0xf && d.low == 0x15 then m.registers[d.x] else m1.delayRegister)
      && t.machine.soundRegister == (if d.a == 0xf && d.low == 0x18 then m.registers[d.x] else m1.soundRegister)
  {
    var m1, high, low := DecrementTimers(m, decrementTimers), m.memory[m.pc], m.memory[m.pc + 1];
    var d := Decode(high, low);
    TickExecutes(m, keys, f, decrementTimers, random);
    ExecuteDelay(m1, f, keys, random, d, Word(high, low));
    ExecuteSound(m1, f, keys, random, d, Word(high, low));
    assert m1.registers == m.registers;
  }

  /** Fx0A with every key up changes nothing but the timers: pc stays, so the same instruction runs next tick. */
  lemma TickWaitsForKey(m: Machine, keys: map<Key, bool>, f: Frame, decrementTimers: bool, random: u8)
    requires ValidMachine(m) && ValidFrame(f) && Complete(keys) && m.pc + 1 < MemorySize
    requires m.memory[m.pc] / 0x10 == 0xf && m.memory[m.pc + 1] == 0x0a
    requires forall k: Key :: !keys[k]
    ensures Tick(m, keys, f, decrementTimers, random) == TickResult(Ok(()), DecrementTimers(m, decrementTimers), f)
  {
    var m1 := DecrementTimers(m, decrementTimers);
    TickExecutes(m, keys, f, decrementTimers, random);
    NonePressedIffAllUp(keys);
    assert WaitKeypress(m1, m.memory[m.pc] % 0x10, keys) == m1;
  }

  // ---------------------------------------------------------------------------
  // Short programs from a freshly loaded machine

  /** `n` ticks without timer updates and with random byte 0, stopping at the first failure. */
  function Ticks(m: Machine, keys: map<Key, bool>, f: Frame, n: nat): (t: TickResult)
    requires ValidMachine(m) && ValidFrame(f) && Complete(keys)
    ensures ValidMachine(t.machine) && ValidFrame(t.frame)
    decreases n
  {
    if n == 0 then TickResult(Ok(()), m, f)
    else
      var t := Tick(m, keys, f, false, 0);
      if t.status.Err? then t else Ticks(t.machine, keys, t.frame, n - 1)
  }

  /** 6005 sets V0 to 5 and moves on to the next instruction. */
  lemma LoadImmProgram(keys: map<Key, bool>, f: Frame)
    requires Complete(keys) && ValidFrame(f)
    ensures Load([0x60, 0x05]).Ok?
    ensures var t := Tick(Load([0x60, 0x05]).value, keys, f, false, 0);
      t.status == Ok(()) && t.machine.registers[0] == 5 && t.machine.pc == LoadAddress + 2
  {
    var m := Load([0x60, 0x05]).value;
    assert m.memory[m.pc] == 0x60 && m.memory[m.pc + 1] == 0x05;
  }

  /** 6xkk at pc: the tick runs `load_imm`. */
  lemma TickLoadImm(m: Machine, keys: map<Key, bool>, f: Frame, x: Nibble, byte: u8)
    requires ValidMachine(m) && ValidFrame(f) && Complete(keys) && m.pc + 1 < MemorySize
    requires m.memory[m.pc] == 0x60 + x && m.memory[m.pc + 1] == byte
    ensures Tick(m, keys, f, false, 0) == TickResult(Ok(()), LoadImm(m, x, byte), f)
  {
  }

  /** 7xkk at pc: the tick runs `add_imm`. */
  lemma TickAddImm(m: Machine, keys: map<Key, bool>, f: Frame, x: Nibble, byte: u8)
    requires ValidMachine(m) && ValidFrame(f) && Complete(keys) && m.pc + 1 < MemorySize
    requires m.memory[m.pc] == 0x70 + x && m.memory[m.pc + 1] == byte
    ensures Tick(m, keys, f, false, 0) == TickResult(Ok(()), AddImm(m, x, byte), f)
  {
  }

  /** 6005 then 7001 leave 6 in V0. */
  lemma AddImmProgram(keys: map<Key, bool>, f: Frame)
    requires Complete(keys) && ValidFrame(f)
    ensures Load([0x60, 0x05, 0x70, 0x01]).Ok?
    ensures var t := Ticks(Load([0x60, 0x05, 0x70, 0x01]).value, keys, f, 2);
      t.status == Ok(()) && t.machine.registers[0] == 6 && t.machine.pc == LoadAddress + 4
  {
    var m := Load([0x60, 0x05, 0x70, 0x01]).value;
    assert m.memory[m.pc] == 0x60 && m.memory[m.pc + 1] == 0x05;
    assert m.memory[m.pc + 2] == 0x70 && m.memory[m.pc + 3] == 0x01;
    TickLoadImm(m, keys, f, 0, 5);
    var m1 := LoadImm(m, 0, 5);
    assert Ticks(m, keys, f, 2) == Ticks(m1, keys, f, 1);
    TickAddImm(m1, keys, f, 0, 1);
    var m2 := AddImm(m1, 0, 1);
    assert Ticks(m1, keys, f, 1) == Ticks(m2, keys, f, 0);
  }

  /** A subroutine that calls itself, with room for `n - 1` more return addresses, overflows the stack on the `n`th call. */
  lemma {:induction false} SelfCallOverflows(m: Machine, keys: map<Key, bool>, f: Frame, n: nat)
    requires ValidMachine(m) && ValidFrame(f) && Complete(keys)
    requires m.pc == LoadAddress && m.memory[LoadAddress] == 0x22 && m.memory[LoadAddress + 1] == 0x00
    requires m.stackPointer + n == MaxStackDepth + 1
    ensures Ticks(m, keys, f, n).status == Err(StackOverflow)
    decreases n
  {
    var t := Tick(m, keys, f, false, 0);
    if m.stackPointer < MaxStackDepth {
      assert t.status == Ok(()) && t.machine.pc == LoadAddress && t.machine.memory == m.memory;
      SelfCallOverflows(t.machine, keys, t.frame, n - 1);
    } else {
      assert t.status == Err(StackOverflow);
    }
  }

  /** 2200 run from a fresh machine: the seventeenth call overflows the sixteen-entry stack. */
  lemma SeventeenCallsOverflow(keys: map<Key, bool>, f: Frame)
    requires Complete(keys) && ValidFrame(f)
    ensures Load([0x22, 0x00]).Ok?
    ensures Ticks(Load([0x22, 0x00]).value, keys, f, 17).status == Err(StackOverflow)
  {
    var m := Load([0x22, 0x00]).value;
    assert m.memory[LoadAddress] == 0x22 && m.memory[LoadAddress + 1] == 0x00;
    SelfCallOverflows(m, keys, f, 17);
  }

  /** 00EE on a fresh machine underflows the empty stack and changes nothing. */
  lemma RetOnEmptyStack(keys: map<Key, bool>, f: Frame)
    requires Complete(keys) && ValidFrame(f)
    ensures Load([0x00, 0xee]).Ok?
    ensures Tick(Load([0x00, 0xee]).value, keys, f, false, 0) == TickResult(Err(StackUnderflow), Load([0x00, 0xee]).value, f)
  {
    var m := Load([0x00, 0xee]).value;
    assert m.memory[m.pc] == 0x00 && m.memory[m.pc + 1] == 0xee;
    TickExecutes(m, keys, f, false, 0);
  }

  /** Fx33 with Vx = 157 stores the digits 1, 5, 7. */
  lemma Bcd157(m: Machine, x: Nibble)
    requires ValidMachine(m) && m.registers[x] == 157 && m.iRegister < MemorySize - 2
    ensures StoreBcdRepresentation(m, x).Ok?
    ensures var i, mem := m.iRegister, StoreBcdRepresentation(m, x).value.memory;
      mem[i] == 1 && mem[i + 1] == 5 && mem[i + 2] == 7
  {
  }

  /** The row byte FF XORed onto a blank grid at column 60 wraps past the right edge. */
  lemma BlitWraps()
    ensures var g := Blit(Blank(), [0xff], 60, 0);
      g[0][60] && g[0][63] && g[0][0] && g[0][3] && !g[0][4] && !g[0][59]
  {
    assert forall j: nat :: j < 8 ==> SpriteBit(0xff, j);
    var g := Blit(Blank(), [0xff], 60, 0);
    assert Covers([0xff], 60, 0, 0, 60) && Covers([0xff], 60, 0, 0, 63);
    assert Covers([0xff], 60, 0, 0, 0) && Covers([0xff], 60, 0, 0, 3);
    assert !Covers([0xff], 60, 0, 0, 4) && !Covers([0xff], 60, 0, 0, 59);
  }

  /**
   * Dxyn of the row byte FF with Vx = 60 on a blank screen: columns 60-63 and
   * 0-3 of row 0 light up, the columns just past them (4 and 59) stay dark,
   * and VF reports no collision.
   */
  lemma SpriteWraps(m: Machine, f: Frame)
    requires ValidMachine(m) && ValidFrame(f) && f.buffer == Blank()
    requires m.registers[0] == 60 && m.registers[1] == 0 && m.iRegister < MemorySize && m.memory[m.iRegister] == 0xff
    ensures DrawSprite(m, f, 0, 1, 1).Ok?
    ensures var (m', f') := DrawSprite(m, f, 0, 1, 1).value; var g := f'.buffer;
      g[0][60] && g[0][63] && g[0][0] && g[0][3] && !g[0][4] && !g[0][59] && m'.registers[Flag] == 0
  {
    var sprite := m.memory[m.iRegister .. m.iRegister + 1];
    assert sprite == [0xff];
    assert DrawSprite(m, f, 0, 1, 1).value.1.buffer == Blit(Blank(), [0xff], 60, 0);
    BlitWraps();
    DrawSpriteFlagIffErased(m, f, 0, 1, 1);
  }
}
