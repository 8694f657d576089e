# A verified model of the rschip8 CHIP-8 interpreter core

This project models the core of rschip8, a CHIP-8 emulator written in
Rust, in Dafny. The core is:

- the `CPU` of `src/emulator/cpu.rs`: its memory, registers, timers and
  call stack, every instruction handler, sprite drawing (`draw_byte`,
  `draw_sprite`), the decode-and-dispatch of `tick`, and loading a program
  (`from_file`, given the file's bytes);
- the keypad of `src/emulator/input.rs`: the virtual `Key`s and their
  4-bit codes, the physical-key mapping `from_keycode`, and the `Keyboard`;
- the `DisplayBuffer` of `src/emulator/ui.rs`: 32 rows of 64 pixels and a
  dirty flag.

The model has two layers.

- **Values** (modules `Semantics`, `Sprite`, `Bytes`, and the functions of
  `Input`): the machine state as a datatype. Each handler is a function
  from state to state, or to a `Result` when the handler can fail. `tick`
  is the function `Semantics.Tick`.
- **Objects** (module `Cpu`, class `Display.DisplayBuffer`, class
  `Input.Keyboard`): the same operations, updating arrays and fields in
  place as the Rust code does. Each `CPU` method is proved to produce
  exactly the transition of a `Semantics` or `Sprite` function, which its
  row under "Model" names: mostly the function of the same name, and for
  instance `Semantics.Load` for `FromFile`, `Semantics.DecrementTimers` for
  `CountDownTimers`, `Semantics.Execute` for the `Run` methods, and
  `Sprite.Blit` and `Sprite.Collides` for `DrawRows`. So every property proved about the values (module `Properties`) holds of
  the objects.

Modules:

| file | module | content |
|---|---|---|
| `wrappers.dfy` | `Wrappers` | `Option` |
| `bytes.dfy` | `Bytes` | `u8`, `u16` and nibbles as bounded integers; `\|`, `&` and `^` on `u8` defined one binary digit at a time; `reverse_bits` and the shift of `draw_byte` on `bv8` |
| `input.dfy` | `Input` | keys, key codes, the keycode mapping, `Keyboard` |
| `display.dfy` | `Display` | the pixel grid as a value (`Frame`) and as a class (`DisplayBuffer`) |
| `sprite.dfy` | `Sprite` | what XOR-drawing a sprite does to the grid, and its collision flag |
| `semantics.dfy` | `Semantics` | machine state, errors, handlers, decoding, `Tick`, `Load` |
| `cpu.dfy` | `Cpu` | the `CPU` class, one method per handler, `Tick` |
| `properties.dfy` | `Properties` | laws relating several instructions or whole ticks, and short programs |

`cpu.rs` is split over four modules. `Bytes` and `Sprite` hold the
bit-level helpers and the value-level meaning of a sprite draw: `Semantics`
and `Cpu` both need them, and the loops of `Cpu` are proved against them.
`Properties` holds the laws that involve several instructions or whole
ticks, so each handler's own contract stays about one call and each
proof stays small.

Two Rust semantics are written out explicitly:

- **Wrapping arithmetic:** `overflowing_add`/`overflowing_sub` on `u8`, the
  16-bit wrap of `I` in Fx1E, and the dropped top bit of a left shift.
- **Write order:** VF written after the result in 8xy4/8xy5/8xy7, and before
  the result in 8xy6/8xyE.

## Model

| member | source | states |
|---|---|---|
| `Input.FromChip8Code` | src/emulator/input.rs:23-43 | a key exists exactly for codes 0-15, and it is the key at that position in declaration order |
| `Input.Chip8Code` | src/emulator/input.rs:67-86 | a key's code is at most 15 and is its position in declaration order |
| `Input.CodeRoundTrip` | src/emulator/input.rs:23-43 | decoding a code 0-15 and re-encoding the key gives the code back |
| `Input.KeyRoundTrip` | src/emulator/input.rs:67-86 | encoding a key and decoding the code gives the key back |
| `Input.FromKeycode` | src/emulator/input.rs:45-65 | no virtual key exactly for a physical key outside the sixteen listed |
| `Input.FromKeycodeInjective` | src/emulator/input.rs:45-65 | no two physical keys map to the same virtual key |
| `Input.FromKeycodeOnto` | src/emulator/input.rs:45-65 | every virtual key is driven by some physical key |
| `Input.IsKeyPressed` | src/emulator/input.rs:110-115 | false for a code above 15; otherwise the state of the key with that code |
| `Input.FindPressed` | src/emulator/input.rs:117-119 | none iff no key from the start position on is down; otherwise a key that is down, with every smaller code up |
| `Input.NonePressedIffAllUp` | src/emulator/input.rs:117-119 | the search finds nothing exactly when every key is up |
| `Input.Keyboard.constructor` | src/emulator/input.rs:90-96 | a state for every key, every key up |
| `Input.Keyboard.KeyDown` | src/emulator/input.rs:98-102 | the mapped key goes down and nothing else changes; an unmapped key changes nothing |
| `Input.Keyboard.KeyUp` | src/emulator/input.rs:104-108 | the mapped key goes up and nothing else changes; an unmapped key changes nothing |
| `Input.Keyboard.AnyPressedKey` | src/emulator/input.rs:117-119 | the loop returns the first pressed key's code in declaration order, equal to `FindPressed` from 0 |
| `Display.Blank` | src/emulator/ui.rs:45-48 | a 32 x 64 grid with every pixel off |
| `Display.DisplayBuffer.Model` | src/emulator/ui.rs:32-35 | the array read as a 32 x 64 grid, pixel for pixel, with the same dirty flag |
| `Display.DisplayBuffer.constructor` | src/emulator/ui.rs:45-48 | every pixel off and the buffer marked dirty |
| `Bytes.BitwiseBit` | src/emulator/cpu.rs:159-175 | bit k of a digit-by-digit combination of two numbers is the operator applied to their bits k |
| `Bytes.SameBits` | src/emulator/cpu.rs:159-175 | two numbers below 2^n with the same n low bits are equal, so a bitwise law on every bit is a law on bytes |
| `Bytes.Or` | src/emulator/cpu.rs:159-163 | bit k of `a \| b` is set exactly when bit k of a or of b is |
| `Bytes.And` | src/emulator/cpu.rs:165-169 | bit k of `a & b` is set exactly when bit k of both a and b is |
| `Bytes.Xor` | src/emulator/cpu.rs:171-175 | bit k of `a ^ b` is set exactly when bits k of a and b differ |
| `Bytes.ReverseBits` | src/emulator/cpu.rs:236 | bit k of `reverse_bits(b)` is bit 7 - k of b |
| `Bytes.ShiftBit` | src/emulator/cpu.rs:248 | after `byte >>= 1`, bit k is the former bit k + 1 |
| `Bytes.OrTwice` | src/emulator/cpu.rs:159-163 | OR-ing with the same byte a second time changes nothing |
| `Bytes.AndTwice` | src/emulator/cpu.rs:165-169 | AND-ing with the same byte a second time changes nothing |
| `Bytes.XorSelf` | src/emulator/cpu.rs:171-175 | a byte XOR-ed with itself is 0 |
| `Bytes.XorTwice` | src/emulator/cpu.rs:171-175 | XOR-ing with the same byte twice gives the first byte back |
| `Sprite.Blit` | src/emulator/cpu.rs:237-242 | the result is again a 32 x 64 grid; which pixels flip is `BlitPixel` |
| `Sprite.Collides` | src/emulator/cpu.rs:244-246 | drawing on a blank grid never collides; the flag in general is `CollidesIffTurnedOff` |
| `Sprite.BlitPixel` | src/emulator/cpu.rs:237-242 | pixel ((y + k) mod 32, (x + j) mod 64) flips exactly when bit 7 - j of sprite row k is set |
| `Sprite.BlitChangesOnlyDrawnPixels` | src/emulator/cpu.rs:237-242 | a pixel that changes is the wrapped image of a set sprite bit |
| `Sprite.BlitTwice` | src/emulator/cpu.rs:242 | drawing the same sprite twice at the same place restores the grid |
| `Sprite.CollidesIffTurnedOff` | src/emulator/cpu.rs:244-246 | the collision flag is set exactly when some pixel went from on to off |
| `Sprite.RowCollidesExists` | src/emulator/cpu.rs:237-246 | the bit-by-bit collision check of one row is a set bit landing on a lit pixel |
| `Semantics.OverflowingAdd` | src/emulator/cpu.rs:148 | the wrapped sum plus 256 times the carry is the true sum |
| `Semantics.OverflowingSub` | src/emulator/cpu.rs:188 | the wrapped difference minus 256 times the borrow is the true difference |
| `Semantics.Initial` | src/emulator/cpu.rs:66-77 | pc is 0x200, memory is the given bytes, every register, timer, stack entry and the stack pointer is 0, and for 4096 bytes the machine is valid |
| `Semantics.IncrementPc` | src/emulator/cpu.rs:104-106 | pc moves by 2 and nothing else changes |
| `Semantics.Jump` | src/emulator/cpu.rs:79-82 | pc becomes the address; nothing else changes |
| `Semantics.Call` | src/emulator/cpu.rs:84-93 | fails with a stack overflow exactly on a full stack; otherwise pushes pc + 2 at the stack pointer, increments it, jumps, and changes nothing else |
| `Semantics.Ret` | src/emulator/cpu.rs:95-102 | fails with a stack underflow exactly on an empty stack; otherwise pops and jumps to the popped address, changing nothing else |
| `Semantics.SkipRegImmEq` | src/emulator/cpu.rs:108-114 | pc advances 4 when Vx == kk, else 2; nothing else changes |
| `Semantics.SkipRegImmNeq` | src/emulator/cpu.rs:116-122 | pc advances 4 when Vx != kk, else 2; nothing else changes |
| `Semantics.SkipRegRegEq` | src/emulator/cpu.rs:124-130 | pc advances 4 when Vx == Vy, else 2; nothing else changes |
| `Semantics.SkipRegRegNeq` | src/emulator/cpu.rs:132-138 | pc advances 4 when Vx != Vy, else 2; nothing else changes |
| `Semantics.LoadImm` | src/emulator/cpu.rs:140-144 | Vx := kk, pc := pc + 2, nothing else changes |
| `Semantics.AddImm` | src/emulator/cpu.rs:146-151 | Vx := Vx + kk modulo 256, VF untouched, pc := pc + 2 |
| `Semantics.LoadReg` | src/emulator/cpu.rs:153-157 | Vx := Vy, pc := pc + 2, nothing else changes |
| `Semantics.OrReg` | src/emulator/cpu.rs:159-163 | bit k of the new Vx is set exactly when bit k of the old Vx or of Vy is; only Vx and pc (+ 2) change |
| `Semantics.AndReg` | src/emulator/cpu.rs:165-169 | bit k of the new Vx is set exactly when bit k of both the old Vx and Vy is; only Vx and pc (+ 2) change |
| `Semantics.XorReg` | src/emulator/cpu.rs:171-175 | bit k of the new Vx is set exactly when bits k of the old Vx and Vy differ; only Vx and pc (+ 2) change |
| `Semantics.AddReg` | src/emulator/cpu.rs:177-184 | VF is the carry of Vx + Vy; for x != F, Vx + 256 * VF is the true sum; only Vx, VF and pc change |
| `Semantics.SubRegWithDest` | src/emulator/cpu.rs:186-193 | VF is 1 exactly when there is no borrow; for dest != F, the wrapped difference is exact up to 256 * borrow; only Vdest, VF and pc change |
| `Semantics.SubReg` | src/emulator/cpu.rs:195-197 | VF == 1 iff Vx >= Vy; for x != F, Vx + 256 * borrow is Vx - Vy, so Vx := Vx - Vy modulo 256 (as `SubRegWithDest` with Vx as destination and minuend) |
| `Semantics.SubnReg` | src/emulator/cpu.rs:199-201 | VF == 1 iff Vy >= Vx; for x != F, Vx + 256 * borrow is Vy - Vx, so Vx := Vy - Vx modulo 256 (as `SubRegWithDest` with Vx as destination and Vy as minuend) |
| `Semantics.ShrReg` | src/emulator/cpu.rs:203-208 | for x != F: 2 * Vx' + VF == Vx with VF a bit; for x == F the shifted flag, 0, remains |
| `Semantics.ShlReg` | src/emulator/cpu.rs:210-215 | for x != F: Vx' + 256 * VF == 2 * Vx with VF a bit; for x == F the shifted flag remains |
| `Semantics.SetI` | src/emulator/cpu.rs:217-221 | I := nnn, pc := pc + 2, nothing else changes |
| `Semantics.JumpV0` | src/emulator/cpu.rs:223-225 | pc := V0 + nnn, nothing else changes |
| `Semantics.LoadAndRndImm` | src/emulator/cpu.rs:227-232 | bit k of Vx is set exactly when bit k of both the drawn byte and kk is; only Vx and pc change |
| `Semantics.DrawSprite` | src/emulator/cpu.rs:254-283 | fails, naming n and I, exactly when I + n > 4096; otherwise only VF and pc change, VF is 0 or 1, and the frame is dirty |
| `Semantics.DrawSpriteFlagIffErased` | src/emulator/cpu.rs:269-278 | after a draw, VF == 1 exactly when some pixel went from on to off |
| `Semantics.SkipKeydown` | src/emulator/cpu.rs:285-291 | skips exactly when Vx is a key code whose key is down |
| `Semantics.SkipNotKeydown` | src/emulator/cpu.rs:293-299 | skips exactly when Vx is no key code or its key is up |
| `Semantics.LoadDelayTimer` | src/emulator/cpu.rs:302-306 | Vx := the delay timer, pc := pc + 2, nothing else changes |
| `Semantics.SetDelayTimer` | src/emulator/cpu.rs:308-312 | delay timer := Vx, pc := pc + 2, nothing else changes |
| `Semantics.SetSoundTimer` | src/emulator/cpu.rs:314-318 | sound timer := Vx, pc := pc + 2, nothing else changes |
| `Semantics.WaitKeypress` | src/emulator/cpu.rs:320-326 | with no key down nothing changes; otherwise Vx := the smallest pressed code and pc := pc + 2 |
| `Semantics.AddIReg` | src/emulator/cpu.rs:328-332 | I := I + Vx modulo 0x10000, pc := pc + 2 |
| `Semantics.LoadSpriteAddress` | src/emulator/cpu.rs:334-339 | I := 5 * Vx; for a digit 0-15 its glyph lies inside the font |
| `Semantics.StoreBcdRepresentation` | src/emulator/cpu.rs:341-357 | fails exactly when I >= 4094; otherwise memory at I, I+1 and I+2 holds the decimal digits of Vx, and no other byte changes |
| `Semantics.StoreRegisters` | src/emulator/cpu.rs:359-376 | fails exactly when I + x >= 4096; otherwise memory at I + j is Vj for j <= x, and no other byte changes |
| `Semantics.ReadRegisters` | src/emulator/cpu.rs:378-395 | fails exactly when I + x >= 4096; otherwise Vj is the memory at I + j for j <= x, and the registers above x are kept |
| `Semantics.ClearScreen` | src/emulator/cpu.rs:397-406 | every pixel off, the buffer dirty, pc := pc + 2 |
| `Semantics.Noop` | src/emulator/cpu.rs:408-411 | pc := pc + 2, nothing else changes |
| `Semantics.Decode` | src/emulator/cpu.rs:425-431 | the nibbles a, x recompose the high byte and y, b the low byte; nnn is x * 0x100 + low and kk is the low byte |
| `Semantics.DecodeFields` | src/emulator/cpu.rs:425-431 | the four nibbles, nnn and kk split from the two bytes are those of the 16-bit word |
| `Semantics.Execute` | src/emulator/cpu.rs:433-477 | a valid machine and frame stay valid; `ExecuteSystemWords` states the 0nnn dispatch, and `ExecuteFailureKeepsState`, `ExecuteInvalidIffUnknown`, `ExecuteFrame` and `ExecuteTimers` state facts that hold across all words |
| `Semantics.DecrementTimers` | src/emulator/cpu.rs:420-423 | when asked, each timer above 0 goes down by one and a timer at 0 stays; nothing else changes |
| `Semantics.Tick` | src/emulator/cpu.rs:413-431 | a valid machine and frame stay valid; its steps are stated by `TickPcOutOfBounds`, `TickExecutes`, `TickFailure` and `TickTimers` |
| `Semantics.Load` | src/emulator/cpu.rs:45-77 | error exactly for an empty program or one over 3584 bytes; otherwise memory holds the font at 0, the program at 0x200 and zeros elsewhere, pc is 0x200, and everything else is 0 |
| `Cpu.CPU.constructor` | src/emulator/cpu.rs:66-77 | the state is `Initial` of the given memory |
| `Cpu.CPU.FromFile` | src/emulator/cpu.rs:45-64 | building the buffer with loops gives exactly `Load` of the program: the same error, or a fresh CPU in the loaded state |
| `Cpu.CPU.IncrementPc` | src/emulator/cpu.rs:104-106 | the new state is `Semantics.IncrementPc` of the old |
| `Cpu.CPU.Jump` | src/emulator/cpu.rs:79-82 | the new state is `Semantics.Jump` of the old |
| `Cpu.CPU.Call` | src/emulator/cpu.rs:84-93 | result and new state follow `Semantics.Call`; on failure nothing changes |
| `Cpu.CPU.Ret` | src/emulator/cpu.rs:95-102 | result and new state follow `Semantics.Ret`; on failure nothing changes |
| `Cpu.CPU.SkipRegImmEq` | src/emulator/cpu.rs:108-114 | the new state is `Semantics.SkipRegImmEq` of the old |
| `Cpu.CPU.SkipRegImmNeq` | src/emulator/cpu.rs:116-122 | the new state is `Semantics.SkipRegImmNeq` of the old |
| `Cpu.CPU.SkipRegRegEq` | src/emulator/cpu.rs:124-130 | the new state is `Semantics.SkipRegRegEq` of the old |
| `Cpu.CPU.SkipRegRegNeq` | src/emulator/cpu.rs:132-138 | the new state is `Semantics.SkipRegRegNeq` of the old |
| `Cpu.CPU.LoadImm` | src/emulator/cpu.rs:140-144 | the new state is `Semantics.LoadImm` of the old |
| `Cpu.CPU.AddImm` | src/emulator/cpu.rs:146-151 | the new state is `Semantics.AddImm` of the old |
| `Cpu.CPU.LoadReg` | src/emulator/cpu.rs:153-157 | the new state is `Semantics.LoadReg` of the old |
| `Cpu.CPU.OrReg` | src/emulator/cpu.rs:159-163 | the new state is `Semantics.OrReg` of the old |
| `Cpu.CPU.AndReg` | src/emulator/cpu.rs:165-169 | the new state is `Semantics.AndReg` of the old |
| `Cpu.CPU.XorReg` | src/emulator/cpu.rs:171-175 | the new state is `Semantics.XorReg` of the old |
| `Cpu.CPU.AddReg` | src/emulator/cpu.rs:177-184 | the new state is `Semantics.AddReg` of the old |
| `Cpu.CPU.SubRegWithDest` | src/emulator/cpu.rs:186-193 | the new state is `Semantics.SubRegWithDest` of the old |
| `Cpu.CPU.SubReg` | src/emulator/cpu.rs:195-197 | the new state is `Semantics.SubReg` of the old |
| `Cpu.CPU.SubnReg` | src/emulator/cpu.rs:199-201 | the new state is `Semantics.SubnReg` of the old |
| `Cpu.CPU.ShrReg` | src/emulator/cpu.rs:203-208 | the new state is `Semantics.ShrReg` of the old |
| `Cpu.CPU.ShlReg` | src/emulator/cpu.rs:210-215 | the new state is `Semantics.ShlReg` of the old |
| `Cpu.CPU.SetI` | src/emulator/cpu.rs:217-221 | the new state is `Semantics.SetI` of the old |
| `Cpu.CPU.JumpV0` | src/emulator/cpu.rs:223-225 | the new state is `Semantics.JumpV0` of the old |
| `Cpu.CPU.LoadAndRndImm` | src/emulator/cpu.rs:227-232 | the new state is `Semantics.LoadAndRndImm` of the old, for the drawn byte |
| `Cpu.CPU.DrawByte` | src/emulator/cpu.rs:234-252 | the loop over the reversed byte XORs exactly the first 8 bits of the row onto row y mod 32, wrapping columns, and reports the row's collision |
| `Cpu.CPU.NextBit` | src/emulator/cpu.rs:242-248 | the low bit of the reversed, shifted byte is the next sprite pixel, and the shift keeps the rest in order |
| `Cpu.CPU.DrawRows` | src/emulator/cpu.rs:269-276 | the buffer ends equal to `Blit` of the sprite, and the flag is `Collides` |
| `Cpu.CPU.DrawSprite` | src/emulator/cpu.rs:254-283 | result, machine and display follow `Semantics.DrawSprite`; on failure nothing changes |
| `Cpu.CPU.SkipKeydown` | src/emulator/cpu.rs:285-291 | the new state is `Semantics.SkipKeydown` of the old |
| `Cpu.CPU.SkipNotKeydown` | src/emulator/cpu.rs:293-299 | the new state is `Semantics.SkipNotKeydown` of the old |
| `Cpu.CPU.LoadDelayTimer` | src/emulator/cpu.rs:302-306 | the new state is `Semantics.LoadDelayTimer` of the old |
| `Cpu.CPU.SetDelayTimer` | src/emulator/cpu.rs:308-312 | the new state is `Semantics.SetDelayTimer` of the old |
| `Cpu.CPU.SetSoundTimer` | src/emulator/cpu.rs:314-318 | the new state is `Semantics.SetSoundTimer` of the old |
| `Cpu.CPU.WaitKeypress` | src/emulator/cpu.rs:320-326 | the new state is `Semantics.WaitKeypress` of the old |
| `Cpu.CPU.AddIReg` | src/emulator/cpu.rs:328-332 | the new state is `Semantics.AddIReg` of the old |
| `Cpu.CPU.LoadSpriteAddress` | src/emulator/cpu.rs:334-339 | the new state is `Semantics.LoadSpriteAddress` of the old |
| `Cpu.CPU.StoreBcdRepresentation` | src/emulator/cpu.rs:341-357 | result and new state follow `Semantics.StoreBcdRepresentation` |
| `Cpu.CPU.StoreRegisters` | src/emulator/cpu.rs:359-376 | the copy loop leaves exactly `Semantics.StoreRegisters`'s memory; on failure nothing changes |
| `Cpu.CPU.ReadRegisters` | src/emulator/cpu.rs:378-395 | the copy loop leaves exactly `Semantics.ReadRegisters`'s registers; on failure nothing changes |
| `Cpu.CPU.ClearScreen` | src/emulator/cpu.rs:397-406 | the nested loops leave the blank dirty frame, and pc moves on |
| `Cpu.CPU.Noop` | src/emulator/cpu.rs:408-411 | the new state is `Semantics.Noop` of the old |
| `Cpu.CPU.Tick` | src/emulator/cpu.rs:413-478 | result, machine and display are those of `Semantics.Tick` for the same keys, timer flag and drawn byte |
| `Cpu.CPU.CountDownTimers` | src/emulator/cpu.rs:420-423 | each timer that is not 0 counts down by one |
| `Cpu.CPU.Run` | src/emulator/cpu.rs:425-477 | the dispatch on the fetched bytes is `Semantics.Execute` of the decoded fields |
| `Cpu.CPU.RunSystem` | src/emulator/cpu.rs:434-436 | the 0nnn patterns are `Semantics.Execute` |
| `Cpu.CPU.RunArithmetic` | src/emulator/cpu.rs:444-452 | the 8xyn patterns are `Semantics.Execute`, including the invalid 8xy8-8xyD and 8xyF |
| `Cpu.CPU.RunKeys` | src/emulator/cpu.rs:458-459 | the Exkk patterns are `Semantics.Execute`, including the invalid ones |
| `Cpu.CPU.RunMisc` | src/emulator/cpu.rs:460-469 | the Fxkk patterns are `Semantics.Execute`, including the invalid ones |
| `Properties.CallThenRet` | src/emulator/cpu.rs:84-102 | a call on a non-full stack, then a return, resumes after the call with the stack depth restored |
| `Properties.StoreThenRead` | src/emulator/cpu.rs:359-395 | Fx65 after Fx55 with the same x and I leaves the registers as they were |
| `Properties.ReadThenStore` | src/emulator/cpu.rs:359-395 | Fx55 after Fx65 with the same x and I leaves memory as it was |
| `Properties.OrRegTwice` | src/emulator/cpu.rs:159-163 | a second 8xy1 with x != y changes only pc |
| `Properties.AndRegTwice` | src/emulator/cpu.rs:165-169 | a second 8xy2 with x != y changes only pc |
| `Properties.XorRegSelf` | src/emulator/cpu.rs:171-175 | 8xx3 clears Vx and changes nothing else but pc |
| `Properties.XorRegTwice` | src/emulator/cpu.rs:171-175 | 8xy3 twice with x != y restores the machine except that pc has moved by 4 |
| `Properties.FontGlyph` | src/emulator/cpu.rs:334-339 | after Fx29 for a digit, the five bytes at I are that digit's glyph |
| `Properties.LoadedFont` | src/emulator/cpu.rs:47-50 | a loaded machine holds the font at address 0 |
| `Properties.DrawSpritePixel` | src/emulator/cpu.rs:254-283 | after Dxyn, bit 7 - j of sprite row k decides whether pixel ((Vy + k) mod 32, (Vx + j) mod 64) flipped |
| `Properties.DrawSpriteChangesOnlyDrawnPixels` | src/emulator/cpu.rs:254-283 | a pixel a Dxyn changes is the image of a set sprite bit |
| `Properties.DrawSpriteTwice` | src/emulator/cpu.rs:254-283 | the same Dxyn twice, coordinates not in VF, restores every pixel |
| `Properties.ExecuteFailureKeepsState` | src/emulator/cpu.rs:433-477 | a failing handler leaves machine and frame unchanged |
| `Properties.ExecuteInvalidIffUnknown` | src/emulator/cpu.rs:433-477 | the invalid-instruction error is raised exactly for words outside the known set |
| `Properties.ExecuteFrame` | src/emulator/cpu.rs:433-477 | only 00E0 and Dxyn touch the display |
| `Properties.ExecuteSystemWords` | src/emulator/cpu.rs:434-436 | for first nibble 0, 00E0 runs `clear_screen` and 00EE runs `ret`, ahead of the 0nnn pattern, and every other 0nnn runs `noop` |
| `Properties.ExecuteTimers` | src/emulator/cpu.rs:462-463 | only Fx15 writes the delay timer and only Fx18 the sound timer, each with Vx |
| `Properties.ExecuteDelay` | src/emulator/cpu.rs:462 | on decoded fields, only Fx15 writes the delay timer |
| `Properties.ExecuteSound` | src/emulator/cpu.rs:463 | on decoded fields, only Fx18 writes the sound timer |
| `Properties.TickPcOutOfBounds` | src/emulator/cpu.rs:414-418 | with pc + 1 >= 4096 the tick fails before the timers move |
| `Properties.TickExecutes` | src/emulator/cpu.rs:420-431 | with pc in bounds, a tick is `Execute` of the decoded word at pc on the counted-down machine (the unfolding step the other tick lemmas start from) |
| `Properties.TickFailure` | src/emulator/cpu.rs:413-478 | a failing tick keeps only the timer countdown; invalid-instruction errors are exactly the unknown words |
| `Properties.TickTimers` | src/emulator/cpu.rs:420-423 | each timer after a tick is Vx when the decoded word is Fx15 (delay) or Fx18 (sound), and otherwise the `DecrementTimers` value |
| `Properties.TickWaitsForKey` | src/emulator/cpu.rs:320-326 | Fx0A with every key up changes only the timers, and pc stays on the instruction |
| `Properties.LoadImmProgram` | src/emulator/cpu.rs:140-144 | the program 6005 sets V0 to 5 and moves pc to 0x202 |
| `Properties.TickLoadImm` | src/emulator/cpu.rs:442 | a tick at a 6xkk word is `load_imm` |
| `Properties.TickAddImm` | src/emulator/cpu.rs:443 | a tick at a 7xkk word is `add_imm` |
| `Properties.AddImmProgram` | src/emulator/cpu.rs:140-151 | 6005 then 7001 leave 6 in V0 and pc at 0x204 |
| `Properties.SelfCallOverflows` | src/emulator/cpu.rs:84-93 | a self-calling 2200 with room for n - 1 more entries overflows on the nth tick |
| `Properties.SeventeenCallsOverflow` | src/emulator/cpu.rs:84-93 | from a fresh machine the seventeenth call overflows the 16-entry stack |
| `Properties.RetOnEmptyStack` | src/emulator/cpu.rs:95-102 | 00EE on a fresh machine underflows and changes nothing |
| `Properties.Bcd157` | src/emulator/cpu.rs:341-357 | Fx33 with Vx = 157 stores 1, 5, 7 |
| `Properties.BlitWraps` | src/emulator/cpu.rs:239 | row byte FF at column 60 lights columns 60-63 and 0-3, and not 59 or 4 |
| `Properties.SpriteWraps` | src/emulator/cpu.rs:254-283 | Dxyn of FF at Vx = 60 on a blank screen wraps to columns 0-3 and reports no collision |

## Left out

- SDL: the window, the canvas and `Screen::draw` (src/emulator/ui.rs) are
  not modelled. `draw` only reads the dirty flag (src/emulator/ui.rs:57),
  and the source never resets it once it is set (it is set at
  src/emulator/ui.rs:47, src/emulator/cpu.rs:279 and src/emulator/cpu.rs:403),
  so no operation of the model clears it either.
- The run loop, its timing and the 60 Hz timer pacing, and `main`
  (src/main.rs, src/emulator/mod.rs) are not modelled. Whether a tick
  counts the timers down is the parameter `decrementTimers`.
- `Cpu.CPU.LoadAndRndImm`: `rand::thread_rng` is not modelled. The drawn
  byte is the parameter `random`, so the model says nothing about its
  distribution.
- `Cpu.CPU.FromFile`: opening and reading the file is not modelled. The
  method takes the file's bytes, and an I/O error cannot occur.
- The error messages: `Semantics.Error` keeps the kind of failure and the
  numbers the message prints (the opcode and pc, the address, the count),
  but not the message text.
- `Semantics.Call` requires pc + 2 < 0x10000, so the `u16` addition at
  src/emulator/cpu.rs:89 cannot overflow. `tick` only calls it with
  pc + 1 < 4096, so the requirement always holds there.
- The bit fields of `tick` (`(high & 0xf0) >> 4`, `high & 0xf`, and so on)
  are written as `/ 0x10` and `% 0x10` on bounded integers.
  `Semantics.DecodeFields` proves the split matches the 16-bit word.
- `Cpu.CPU.Tick`: the `match` of `tick` is split by first nibble into
  `Run`, `RunSystem`, `RunArithmetic`, `RunKeys` and `RunMisc`; the timer
  step is `CountDownTimers`.
- `Cpu.CPU.DrawSprite`: its loop over the sprite bytes is `DrawRows`, and
  `NextBit` is one step of `draw_byte`'s shift loop. The behaviour is
  unchanged.
- `Properties.Ticks`: the runs of several ticks fix the random byte at 0,
  never count the timers down, and keep the keys fixed.
- Rust's `|`, `&` and `^` on `u8` are modelled by `Bytes.Bitwise`, which
  combines two numbers one binary digit at a time, instead of by `bv8`
  operators; the contracts of `Bytes.Or`, `Bytes.And` and `Bytes.Xor` state
  the bit-by-bit law that makes the two agree.
