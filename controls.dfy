/**
 * The per-frame translation rules shared by the emulator front-ends: which
 * logical button a polled controller asserts through the database's button
 * map, the rapid-fire filter, the Wiimote d-pad mask used when a Nunchuk is
 * attached, and the resolution of the four directions into pad bits.
 *
 * Polling is not modelled: one `Sample` holds what the pad scanning calls
 * returned for one controller slot in one frame.  The analog threshold
 * helpers work on floats and are given as the set of directions they report;
 * the digital d-pad helpers, whose bodies are not part of this model, are an
 * uninterpreted function value in `Hardware`.
 *
 * A machine word (the 32-bit button words, the 16-bit pad word) is the set
 * of the positions of its 1 bits: `a & b` is `a * b`, `a | b` is `a + b`,
 * `a & ~b` is `a - b` and `a & b != 0` is `a * b != {}`.
 */
module Controls {

  /** A machine word as the set of the positions of its 1 bits. */
  type Word = set<nat>

  /** The Wiimote expansion reported for a slot; any other expansion type reads as NoExpansion. */
  datatype Expansion = NoExpansion | Nunchuk | Classic

  datatype Direction = Up | Left | Down | Right

  const AllDirections: set<Direction> := {Up, Left, Down, Right}

  /** What was polled for one controller slot in one frame. */
  datatype Sample = Sample(
    pressed: Word,            // Wiimote (and expansion) buttons that went down this frame
    held: Word,               // Wiimote (and expansion) buttons held
    gcPressed: Word,          // GameCube pad buttons that went down this frame
    gcHeld: Word,             // GameCube pad buttons held
    expansion: Expansion,
    analog: set<Direction>)   // directions whose analog threshold helper fires for this slot

  /**
   * The digital d-pad helper: for a direction, "no Nunchuk attached",
   * "Classic attached" and the masked held word, whether that direction's
   * digital pad is pressed.
   */
  type DigitalHelper = (Direction, bool, bool, Word) -> bool

  /** Host button constants and the digital d-pad helper. */
  datatype Hardware = Hardware(
    wiiHome: Word, gcHome: Word,
    gcUp: Word, gcLeft: Word, gcDown: Word, gcRight: Word,
    digital: DigitalHelper)

  /**
   * One logical button of the emulated system together with its row of the
   * database's applied button map: the logical value (low 16 bits plus flag
   * bits) and the raw mask for each controller type.
   */
  datatype Binding = Binding(button: Word, mote: Word, chuk: Word, classic: Word, cube: Word)

  /** The flag bits of a logical value: the rapid-fire flag and the special-action flag (empty when the system has none). */
  datatype Flags = Flags(rapid: Word, special: Word)

  /** The pad bits written for each physical direction. */
  datatype DirBits = DirBits(up: Word, left: Word, down: Word, right: Word)

  /** `a & b != 0` */
  predicate Meets(a: Word, b: Word)
  {
    a * b != {}
  }

  /** The Wiimote d-pad bits, 0x0F00. */
  const WiimoteDpad: Word := {8, 9, 10, 11}

  /** The held word handed to the digital d-pad helpers: the Wiimote d-pad is masked off while a Nunchuk is attached. */
  function HeldLeft(held: Word, isNunchuk: bool): (r: Word)
    ensures r * WiimoteDpad == (if isNunchuk then {} else held * WiimoteDpad)
    ensures r - WiimoteDpad == held - WiimoteDpad
  {
    if isNunchuk then held - WiimoteDpad else held
  }

  /**
   * The mapped-button rule: the held word meets the Classic mask (Classic
   * attached) or the Nunchuk mask (Nunchuk attached) or the Wiimote mask (no
   * Nunchuk), or the GameCube held word meets the GameCube mask.
   */
  function Asserted(s: Sample, b: Binding): (r: bool)
    ensures r <==>
      (s.expansion == Classic && Meets(s.held, b.classic)) ||
      (s.expansion == Nunchuk && Meets(s.held, b.chuk)) ||
      (s.expansion != Nunchuk && Meets(s.held, b.mote)) ||
      Meets(s.gcHeld, b.cube)
  {
    var wii := (if s.expansion == Classic then b.classic else {}) +
               (if s.expansion == Nunchuk then b.chuk else b.mote);
    Meets(s.held, wii) || Meets(s.gcHeld, b.cube)
  }

  /** A button whose logical value carries the special flag drives a special action instead of a pad bit. */
  predicate IsSpecialPress(s: Sample, b: Binding, flags: Flags)
  {
    Asserted(s, b) && Meets(b.button, flags.special)
  }

  /** Whether a button lands in the pad word: asserted, not special, and either not rapid-fire or on a rapid frame. */
  predicate Contributes(s: Sample, b: Binding, flags: Flags, isRapid: bool)
  {
    Asserted(s, b) && !Meets(b.button, flags.special) && (!Meets(b.button, flags.rapid) || isRapid)
  }

  /** `v & 0xFFFF`, also what storing into a 16-bit pad word keeps. */
  function Low16(v: Word): Word
  {
    set b | b in v && b < 16
  }

  /** The pad bits contributed by the mapped-button loop over `bs`, in table order. */
  function MappedWord(s: Sample, bs: seq<Binding>, flags: Flags, isRapid: bool): (r: Word)
    ensures forall k :: k in r ==> k < 16
    decreases |bs|
  {
    if |bs| == 0 then {}
    else
      var last := bs[|bs| - 1];
      MappedWord(s, bs[..|bs| - 1], flags, isRapid) +
      (if Contributes(s, last, flags, isRapid) then Low16(last.button) else {})
  }

  /** Every contributing button's low 16 bits are set in the mapped word. */
  lemma {:induction false} MappedWordCovers(s: Sample, bs: seq<Binding>, flags: Flags, isRapid: bool, i: nat)
    requires i < |bs| && Contributes(s, bs[i], flags, isRapid)
    ensures Low16(bs[i].button) <= MappedWord(s, bs, flags, isRapid)
  {
    if i < |bs| - 1 {
      MappedWordCovers(s, bs[..|bs| - 1], flags, isRapid, i);
    }
  }

  /**
   * The mapped word has no other bits: each of its bits is a low bit of a
   * contributing button.  With MappedWordCovers, the mapped word is exactly
   * the union of the contributing buttons' low 16 bits.
   */
  lemma {:induction false} MappedWordSource(s: Sample, bs: seq<Binding>, flags: Flags, isRapid: bool, k: nat)
    requires k in MappedWord(s, bs, flags, isRapid)
    ensures exists i :: 0 <= i < |bs| && Contributes(s, bs[i], flags, isRapid) && k in Low16(bs[i].button)
  {
    var last := |bs| - 1;
    if k !in (if Contributes(s, bs[last], flags, isRapid) then Low16(bs[last].button) else {}) {
      MappedWordSource(s, bs[..last], flags, isRapid, k);
      var i :| 0 <= i < last && Contributes(s, bs[..last][i], flags, isRapid) && k in Low16(bs[..last][i].button);
      assert bs[..last][i] == bs[i];
    }
  }

  /** No stuck bits: when no button contributes (all released, only rapid ones on a non-rapid frame, or only special ones) the mapped word is 0. */
  lemma MappedWordEmpty(s: Sample, bs: seq<Binding>, flags: Flags, isRapid: bool)
    requires forall i :: 0 <= i < |bs| ==> !Contributes(s, bs[i], flags, isRapid)
    ensures MappedWord(s, bs, flags, isRapid) == {}
  {
    if k :| k in MappedWord(s, bs, flags, isRapid) {
      MappedWordSource(s, bs, flags, isRapid, k);
    }
  }

  /** The home check: the Wiimote or GameCube home button went down, or the console's hardware button was pressed. */
  predicate HomePressed(s: Sample, hw: Hardware, hwButton: bool)
    ensures hwButton ==> HomePressed(s, hw, hwButton)
    ensures Meets(s.pressed, hw.wiiHome) ==> HomePressed(s, hw, hwButton)
    ensures Meets(s.gcPressed, hw.gcHome) ==> HomePressed(s, hw, hwButton)
    ensures !Meets(s.pressed, hw.wiiHome) && !Meets(s.gcPressed, hw.gcHome) && !hwButton ==> !HomePressed(s, hw, hwButton)
  {
    Meets(s.pressed, hw.wiiHome) || Meets(s.gcPressed, hw.gcHome) || hwButton
  }

  function GcBit(hw: Hardware, d: Direction): Word
  {
    match d
    case Up => hw.gcUp
    case Left => hw.gcLeft
    case Down => hw.gcDown
    case Right => hw.gcRight
  }

  function Bit(t: DirBits, d: Direction): Word
  {
    match d
    case Up => t.up
    case Left => t.left
    case Down => t.down
    case Right => t.right
  }

  /** A physical direction is pressed when the digital helper (fed the masked held word), the GameCube d-pad or the analog helper reports it. */
  predicate DirAsserted(s: Sample, hw: Hardware, d: Direction)
  {
    hw.digital(d, s.expansion != Nunchuk, s.expansion == Classic, HeldLeft(s.held, s.expansion == Nunchuk)) ||
    Meets(s.gcHeld, GcBit(hw, d)) ||
    d in s.analog
  }

  function AssertedDirections(s: Sample, hw: Hardware): set<Direction>
  {
    set d | d in AllDirections && DirAsserted(s, hw, d)
  }

  /** The direction bits OR-ed into a 16-bit pad word, checked in the order right, left, up, down; `t` gives the bit written for each physical direction. */
  function DirectionWord(s: Sample, hw: Hardware, t: DirBits): Word
  {
    (if DirAsserted(s, hw, Right) then Low16(t.right) else {}) +
    (if DirAsserted(s, hw, Left) then Low16(t.left) else {}) +
    (if DirAsserted(s, hw, Up) then Low16(t.up) else {}) +
    (if DirAsserted(s, hw, Down) then Low16(t.down) else {})
  }

  /**
   * The four direction checks of a frame, in the source's order: each pressed
   * direction ORs its bit from `t` into the 16-bit word.
   */
  method ResolveDirections(s: Sample, hw: Hardware, t: DirBits) returns (w: Word)
    ensures w == DirectionWord(s, hw, t)
  {
    var isClassic := s.expansion == Classic;
    var isNunchuk := s.expansion == Nunchuk;
    var heldLeft := HeldLeft(s.held, isNunchuk);
    w := {};
    if hw.digital(Right, !isNunchuk, isClassic, heldLeft) || Meets(s.gcHeld, hw.gcRight) || Right in s.analog {
      w := w + Low16(t.right);
    }
    if hw.digital(Left, !isNunchuk, isClassic, heldLeft) || Meets(s.gcHeld, hw.gcLeft) || Left in s.analog {
      w := w + Low16(t.left);
    }
    if hw.digital(Up, !isNunchuk, isClassic, heldLeft) || Meets(s.gcHeld, hw.gcUp) || Up in s.analog {
      w := w + Low16(t.up);
    }
    if hw.digital(Down, !isNunchuk, isClassic, heldLeft) || Meets(s.gcHeld, hw.gcDown) || Down in s.analog {
      w := w + Low16(t.down);
    }
  }

  /** A one-bit constant that fits the 16-bit pad word. */
  predicate PadBit(x: Word)
  {
    |x| == 1 && forall b :: b in x ==> b < 16
  }

  /** The four direction constants are one-bit pad constants, pairwise distinct. */
  predicate DistinctSingleBits(t: DirBits)
  {
    PadBit(t.up) && PadBit(t.left) && PadBit(t.down) && PadBit(t.right) &&
    t.up != t.left && t.up != t.down && t.up != t.right &&
    t.left != t.down && t.left != t.right && t.down != t.right
  }

  /** With distinct one-bit constants, a direction's bit is set in the direction word exactly when that direction is pressed. */
  lemma DirectionWordBit(s: Sample, hw: Hardware, t: DirBits, d: Direction)
    requires DistinctSingleBits(t)
    ensures Bit(t, d) <= DirectionWord(s, hw, t) <==> DirAsserted(s, hw, d)
  {
    var k := OnlyBit(t, d);
    assert k in DirectionWord(s, hw, t) <==> DirAsserted(s, hw, d) by {
      match d
      case Up => assert k !in Bit(t, Right) && k !in Bit(t, Left) && k !in Bit(t, Down);
      case Left => assert k !in Bit(t, Right) && k !in Bit(t, Up) && k !in Bit(t, Down);
      case Down => assert k !in Bit(t, Right) && k !in Bit(t, Left) && k !in Bit(t, Up);
      case Right => assert k !in Bit(t, Left) && k !in Bit(t, Up) && k !in Bit(t, Down);
    }
  }

  /** The position of direction `d`'s bit, which no other direction's constant has. */
  lemma OnlyBit(t: DirBits, d: Direction) returns (k: nat)
    requires DistinctSingleBits(t)
    ensures Bit(t, d) == {k} && k < 16
    ensures forall e :: e != d ==> k !in Bit(t, e)
  {
    k := TheBit(Bit(t, d));
    forall e | e != d
      ensures k !in Bit(t, e)
    {
      var k' := TheBit(Bit(t, e));
    }
  }

  /** The position of a one-bit constant. */
  lemma TheBit(x: Word) returns (k: nat)
    requires PadBit(x)
    ensures x == {k} && k < 16
  {
    k :| k in x;
    var rest := x - {k};
    assert x == rest + {k};
    assert |rest| == 0;
    assert x == {k};
  }

  /**
   * While a Nunchuk is attached the Wiimote d-pad bits of the held word do
   * not reach the direction resolution: two samples that differ only there
   * resolve the same directions.
   */
  lemma NunchukMasksWiimoteDpad(s: Sample, s': Sample, hw: Hardware, d: Direction)
    requires s.expansion == Nunchuk && s' == s.(held := s'.held)
    requires s.held - WiimoteDpad == s'.held - WiimoteDpad
    ensures DirAsserted(s, hw, d) == DirAsserted(s', hw, d)
  {
  }
}
