/**
 * The 16-key CHIP-8 keypad (src/emulator/input.rs): the virtual keys, their
 * 4-bit codes, the physical keys that drive them, and the `Keyboard` whose
 * pressed/released state the CPU reads.
 */
module Input {
  import opened Bytes
  import opened Wrappers

  /** The virtual keys, in declaration (and iteration) order. */
  datatype Key = Num0 | Num1 | Num2 | Num3 | Num4 | Num5 | Num6 | Num7 | Num8 | Num9
               | A | B | C | D | E | F

  /** The physical keys the emulator maps, plus every other key. */
  datatype Keycode = Num1 | Num2 | Num3 | Num4 | Q | W | E | R
                   | A | S | D | F | Z | X | C | V | Other

  /** `Key::iter()`: every key, in declaration order. */
  const AllKeys: seq<Key> := [Key.Num0, Key.Num1, Key.Num2, Key.Num3, Key.Num4, Key.Num5,
                              Key.Num6, Key.Num7, Key.Num8, Key.Num9,
                              Key.A, Key.B, Key.C, Key.D, Key.E, Key.F]

  /** `Key::from_chip8_code`: the key with 4-bit code `code`, if there is one. */
  function FromChip8Code(code: u8): (r: Option<Key>)
    ensures r.Some? <==> code <= 15
    ensures r.Some? ==> r.value == AllKeys[code]
  {
    match code
    case 0 => Some(Key.Num0)
    case 1 => Some(Key.Num1)
    case 2 => Some(Key.Num2)
    case 3 => Some(Key.Num3)
    case 4 => Some(Key.Num4)
    case 5 => Some(Key.Num5)
    case 6 => Some(Key.Num6)
    case 7 => Some(Key.Num7)
    case 8 => Some(Key.Num8)
    case 9 => Some(Key.Num9)
    case 0xa => Some(Key.A)
    case 0xb => Some(Key.B)
    case 0xc => Some(Key.C)
    case 0xd => Some(Key.D)
    case 0xe => Some(Key.E)
    case 0xf => Some(Key.F)
    case _ => None
  }

  /** `Key::chip8_code`: the 4-bit code of a key, its position in declaration order. */
  function Chip8Code(k: Key): (c: u8)
    ensures c <= 15 && AllKeys[c] == k
  {
    match k
    case Num0 => 0
    case Num1 => 1
    case Num2 => 2
    case Num3 => 3
    case Num4 => 4
    case Num5 => 5
    case Num6 => 6
    case Num7 => 7
    case Num8 => 8
    case Num9 => 9
    case A => 0xa
    case B => 0xb
    case C => 0xc
    case D => 0xd
    case E => 0xe
    case F => 0xf
  }

  /** Decoding a valid code and encoding the key gives the code back. */
  lemma CodeRoundTrip(code: u8)
    requires code <= 15
    ensures FromChip8Code(code).Some? && Chip8Code(FromChip8Code(code).value) == code
  {
  }

  /** Encoding a key and decoding the code gives the key back. */
  lemma KeyRoundTrip(k: Key)
    ensures FromChip8Code(Chip8Code(k)) == Some(k)
  {
  }

  /** `Key::from_keycode`: the virtual key a physical key drives (the 4x4 block 1-4/Q-R/A-F/Z-V). */
  function FromKeycode(code: Keycode): (r: Option<Key>)
    ensures r.None? <==> code == Keycode.Other
  {
    match code
    case Num1 => Some(Key.Num1)
    case Num2 => Some(Key.Num2)
    case Num3 => Some(Key.Num3)
    case Num4 => Some(Key.C)
    case Q => Some(Key.Num4)
    case W => Some(Key.Num5)
    case E => Some(Key.Num6)
    case R => Some(Key.D)
    case A => Some(Key.Num7)
    case S => Some(Key.Num8)
    case D => Some(Key.Num9)
    case F => Some(Key.E)
    case Z => Some(Key.A)
    case X => Some(Key.Num0)
    case C => Some(Key.B)
    case V => Some(Key.F)
    case Other => None
  }

  /** No two physical keys drive the same virtual key. */
  lemma FromKeycodeInjective(c1: Keycode, c2: Keycode)
    requires FromKeycode(c1).Some? && FromKeycode(c1) == FromKeycode(c2)
    ensures c1 == c2
  {
  }

  /** Every virtual key is driven by some physical key. */
  lemma FromKeycodeOnto(k: Key)
    ensures exists code :: FromKeycode(code) == Some(k)
  {
    var code := match k
      case Num0 => Keycode.X
      case Num1 => Keycode.Num1
      case Num2 => Keycode.Num2
      case Num3 => Keycode.Num3
      case Num4 => Keycode.Q
      case Num5 => Keycode.W
      case Num6 => Keycode.E
      case Num7 => Keycode.A
      case Num8 => Keycode.S
      case Num9 => Keycode.D
      case A => Keycode.Z
      case B => Keycode.C
      case C => Keycode.Num4
      case D => Keycode.R
      case E => Keycode.F
      case F => Keycode.V;
    assert FromKeycode(code) == Some(k);
  }

  /** The keyboard holds a state for every key. */
  predicate Complete(state: map<Key, bool>)
  {
    forall k: Key :: k in state
  }

  /** `Keyboard::is_key_pressed`: the key with code `code` is down; false for a code above 15. */
  function IsKeyPressed(state: map<Key, bool>, code: u8): (b: bool)
    requires Complete(state)
    ensures code > 15 ==> !b
    ensures code <= 15 ==> b == state[AllKeys[code]]
  {
    match FromChip8Code(code)
    case Some(key) => state[key]
    case None => false
  }

  /**
   * The search `any_pressed_key` performs: the first key, in declaration order
   * from position `from` on, that is down, as its code.
   */
  function FindPressed(state: map<Key, bool>, from: nat): (r: Option<u8>)
    requires Complete(state) && from <= 16
    ensures r.None? <==> forall c: u8 :: from <= c <= 15 ==> !IsKeyPressed(state, c)
    ensures r.Some? ==> from <= r.value <= 15 && IsKeyPressed(state, r.value)
    ensures r.Some? ==> forall c: u8 :: from <= c < r.value ==> !IsKeyPressed(state, c)
    decreases 16 - from
  {
    if from == 16 then None
    else if state[AllKeys[from]] then
      assert IsKeyPressed(state, from);
      Some(Chip8Code(AllKeys[from]))
    else FindPressed(state, from + 1)
  }

  /** The search from code 0 finds nothing exactly when every key is up. */
  lemma NonePressedIffAllUp(state: map<Key, bool>)
    requires Complete(state)
    ensures FindPressed(state, 0).None? <==> forall k: Key :: !state[k]
  {
    if FindPressed(state, 0).None? {
      forall k: Key
        ensures !state[k]
      {
        assert !IsKeyPressed(state, Chip8Code(k));
      }
    } else {
      assert state[AllKeys[FindPressed(state, 0).value]];
    }
  }

  /** `Keyboard`: the pressed state of every virtual key, updated by key events. */
  class Keyboard {
    var state: map<Key, bool>

    ghost predicate Valid()
      reads this
    {
      Complete(state)
    }

    /** `Keyboard::new`: every key starts up. */
    constructor ()
      ensures Valid()
      ensures forall k: Key :: !state[k]
    {
      state := map[];
      new;
      for j := 0 to |AllKeys|
        invariant forall i :: 0 <= i < j ==> AllKeys[i] in state && !state[AllKeys[i]]
        invariant forall k :: k in state ==> !state[k]
      {
        state := state[AllKeys[j] := false];
      }
      forall k: Key ensures k in state {
        assert AllKeys[Chip8Code(k)] == k;
      }
    }

    /** `Keyboard::key_down`: the mapped key goes down; an unmapped key changes nothing. */
    method KeyDown(code: Keycode)
      requires Valid()
      modifies this
      ensures Valid()
      ensures state == match FromKeycode(code)
                       case Some(key) => old(state)[key := true]
                       case None => old(state)
      ensures forall c: u8 :: (IsKeyPressed(state, c) ==
        if FromKeycode(code).Some? && c == Chip8Code(FromKeycode(code).value) then true
        else old(IsKeyPressed(state, c)))
    {
      var key := FromKeycode(code);
      if key.Some? {
        state := state[key.value := true];
      }
    }

    /** `Keyboard::key_up`: the mapped key goes up; an unmapped key changes nothing. */
    method KeyUp(code: Keycode)
      requires Valid()
      modifies this
      ensures Valid()
      ensures state == match FromKeycode(code)
                       case Some(key) => old(state)[key := false]
                       case None => old(state)
      ensures forall c: u8 :: (IsKeyPressed(state, c) ==
        if FromKeycode(code).Some? && c == Chip8Code(FromKeycode(code).value) then false
        else old(IsKeyPressed(state, c)))
    {
      var key := FromKeycode(code);
      if key.Some? {
        state := state[key.value := false];
      }
    }

    /**
     * `Keyboard::any_pressed_key`: the code of the first key, in declaration
     * order, that is down, which is the smallest such code; none when every key is up.
     */
    method AnyPressedKey() returns (r: Option<u8>)
      requires Valid()
      ensures r == FindPressed(state, 0)
    {
      for j := 0 to |AllKeys|
        invariant FindPressed(state, 0) == FindPressed(state, j)
      {
        if state[AllKeys[j]] {
          CodeRoundTrip(j);
          assert FindPressed(state, j) == Some(j);
          return Some(Chip8Code(AllKeys[j]));
        }
        assert FindPressed(state, j) == FindPressed(state, j + 1);
      }
      return None;
    }
  }
}
