/**
 * The Lynx front-end.  Every frame it reads controller slot 0 only: the
 * mapped buttons go through the button map and the rapid-fire filter, and
 * the four physical directions are written through the rotation table of
 * the game's orientation, so that "up" on the pad is "up" on the rotated
 * screen.  Nothing carries over from one frame to the next, and reloading
 * a game changes nothing.
 */
module Lynx {
  import opened Controls

  /**
   * The orientations the direction switch handles.  The source switch has
   * no default branch, so any other orientation code would leave the
   * direction variables unset; the type rules such codes out.
   */
  datatype Rotation = Rotate0 | Rotate90 | Rotate270

  /** The game's database entry and the host constants: buttons with their map rows, BTN_RAPID, LYNX_UP/LEFT/DOWN/RIGHT. */
  datatype Config = Config(bindings: seq<Binding>, rapid: Word, hw: Hardware, dirs: DirBits)

  /** The Lynx table has no special-action buttons. */
  function LynxFlags(cfg: Config): Flags
  {
    Flags(cfg.rapid, {})
  }

  /** The direction switch: the Lynx bit each physical direction writes, as DirBits(up, left, down, right). */
  function RotationTable(rot: Rotation, lynx: DirBits): (r: DirBits)
    ensures forall d :: Bit(r, d) == Bit(lynx, Turn(rot, d))
  {
    match rot
    case Rotate0 => DirBits(lynx.up, lynx.left, lynx.down, lynx.right)
    case Rotate270 => DirBits(lynx.left, lynx.down, lynx.right, lynx.up)
    case Rotate90 => DirBits(lynx.right, lynx.up, lynx.left, lynx.down)
  }

  /*
   * An independent description of the same tables: the directions form the
   * cycle up, left, down, right, and each rotation moves a fixed number of
   * steps along that cycle (rotation 270 one step, rotation 90 three).
   */

  /** One step along the cycle up, left, down, right. */
  function Next(d: Direction): Direction
  {
    match d
    case Up => Left
    case Left => Down
    case Down => Right
    case Right => Up
  }

  function Steps(rot: Rotation): nat
  {
    match rot
    case Rotate0 => 0
    case Rotate270 => 1
    case Rotate90 => 3
  }

  function Walk(n: nat, d: Direction): Direction
  {
    if n == 0 then d else Walk(n - 1, Next(d))
  }

  /** The logical direction a physical direction becomes under a rotation. */
  function Turn(rot: Rotation, d: Direction): Direction
  {
    Walk(Steps(rot), d)
  }

  /** Rotation 0 leaves up, left, down and right where they are. */
  lemma Rotation0Identity(lynx: DirBits)
    ensures RotationTable(Rotate0, lynx) == lynx
    ensures forall d :: Turn(Rotate0, d) == d
  {
  }

  /** Rotation 270 sends up to left, left to down, down to right and right to up. */
  lemma Rotation270Cycle()
    ensures Turn(Rotate270, Up) == Left && Turn(Rotate270, Left) == Down
    ensures Turn(Rotate270, Down) == Right && Turn(Rotate270, Right) == Up
  {
  }

  /** The rotation-90 table undoes the rotation-270 table and the other way round. */
  lemma Rotation90Inverts270(lynx: DirBits)
    ensures RotationTable(Rotate90, RotationTable(Rotate270, lynx)) == lynx
    ensures RotationTable(Rotate270, RotationTable(Rotate90, lynx)) == lynx
  {
  }

  /** Three applications of the rotation-90 table make the rotation-270 table. */
  lemma Rotation90Thrice(lynx: DirBits)
    ensures RotationTable(Rotate90, RotationTable(Rotate90, RotationTable(Rotate90, lynx))) ==
            RotationTable(Rotate270, lynx)
  {
  }

  /** The rotation that undoes `rot`. */
  function Inverse(rot: Rotation): Rotation
  {
    match rot
    case Rotate0 => Rotate0
    case Rotate90 => Rotate270
    case Rotate270 => Rotate90
  }

  /** Turning by a rotation and then by its inverse, in either order, gives back the direction. */
  lemma InverseUndoes(rot: Rotation, d: Direction)
    ensures Turn(Inverse(rot), Turn(rot, d)) == d && Turn(rot, Turn(Inverse(rot), d)) == d
  {
  }

  /** Every rotation is one-to-one on the four directions. */
  lemma TurnInjective(rot: Rotation, d: Direction, e: Direction)
    requires Turn(rot, d) == Turn(rot, e)
    ensures d == e
  {
    InverseUndoes(rot, d);
    InverseUndoes(rot, e);
  }

  function TurnImage(rot: Rotation, p: set<Direction>): set<Direction>
  {
    set d | d in p :: Turn(rot, d)
  }

  /** A rotation maps a set of directions onto a set of the same size. */
  lemma {:induction false} TurnImageSize(rot: Rotation, p: set<Direction>)
    ensures |TurnImage(rot, p)| == |p|
    decreases |p|
  {
    if p != {} {
      var d :| d in p;
      var rest := p - {d};
      TurnImageSize(rot, rest);
      assert TurnImage(rot, p) == TurnImage(rot, rest) + {Turn(rot, d)};
      if Turn(rot, d) in TurnImage(rot, rest) {
        var e :| e in rest && Turn(rot, e) == Turn(rot, d);
        TurnInjective(rot, d, e);
      }
    }
  }

  /** The rotated table still holds four distinct one-bit constants. */
  lemma RotationTableDistinct(rot: Rotation, lynx: DirBits)
    requires DistinctSingleBits(lynx)
    ensures DistinctSingleBits(RotationTable(rot, lynx))
  {
  }

  /** The logical directions whose Lynx bit is set in a word. */
  function DirectionsIn(lynx: DirBits, w: Word): set<Direction>
  {
    set e | e in AllDirections && Bit(lynx, e) <= w
  }

  /**
   * With distinct one-bit Lynx constants, the logical directions set in the
   * direction word are exactly the rotated physical directions that are
   * pressed, and there are as many of them as pressed physical directions.
   */
  lemma RotatedDirections(s: Sample, hw: Hardware, rot: Rotation, lynx: DirBits)
    requires DistinctSingleBits(lynx)
    ensures DirectionsIn(lynx, DirectionWord(s, hw, RotationTable(rot, lynx))) ==
            TurnImage(rot, AssertedDirections(s, hw))
    ensures |DirectionsIn(lynx, DirectionWord(s, hw, RotationTable(rot, lynx)))| ==
            |AssertedDirections(s, hw)|
  {
    var table := RotationTable(rot, lynx);
    var w := DirectionWord(s, hw, table);
    var pressed := AssertedDirections(s, hw);
    var inWord := DirectionsIn(lynx, w);
    var turned := TurnImage(rot, pressed);
    RotationTableDistinct(rot, lynx);
    forall e: Direction
      ensures e in inWord <==> e in turned
    {
      var d := Turn(Inverse(rot), e);
      InverseUndoes(rot, e);
      assert Bit(table, d) == Bit(lynx, e);
      DirectionWordBit(s, hw, table, d);
      if e in turned {
        var d' :| d' in pressed && Turn(rot, d') == e;
        TurnInjective(rot, d, d');
      }
    }
    assert inWord == turned;
    TurnImageSize(rot, pressed);
  }

  /** Controller 0's pad word: its mapped buttons and its rotated directions. */
  function LynxPad(s: Sample, rot: Rotation, isRapid: bool, cfg: Config): Word
  {
    MappedWord(s, cfg.bindings, LynxFlags(cfg), isRapid) + DirectionWord(s, cfg.hw, RotationTable(rot, cfg.dirs))
  }

  /** The Lynx input state: the pad word handed to the emulator and the game's orientation from its database entry. */
  class LynxInput {
    var padData: Word
    var orient: Rotation

    /** The orientation of the loaded game's database entry. */
    function GetRotation(): (r: Rotation)
      reads this
      ensures r == orient
    {
      orient
    }

    /**
     * One frame: the pad word is recomputed from controller 0's sample, the
     * orientation, the rapid frame flag and the configuration alone; `exit`
     * reports the home check.
     */
    method UpdateControls(isRapid: bool, s: Sample, hwButton: bool, cfg: Config) returns (exit: bool)
      modifies this
      ensures orient == old(orient)
      ensures padData == LynxPad(s, orient, isRapid, cfg)
      ensures exit == HomePressed(s, cfg.hw, hwButton)
    {
      exit := Meets(s.pressed, cfg.hw.wiiHome) || Meets(s.gcPressed, cfg.hw.gcHome) || hwButton;

      var result: Word := {};
      var i := 0;
      while i < |cfg.bindings|
        invariant 0 <= i <= |cfg.bindings|
        invariant result == MappedWord(s, cfg.bindings[..i], LynxFlags(cfg), isRapid)
      {
        var b := cfg.bindings[i];
        if Asserted(s, b) {
          if !Meets(b.button, cfg.rapid) || isRapid {
            result := result + Low16(b.button);
          }
        }
        assert cfg.bindings[..i + 1][..i] == cfg.bindings[..i];
        i := i + 1;
      }
      assert cfg.bindings[..i] == cfg.bindings;

      var directions := ResolveDirections(s, cfg.hw, RotationTable(GetRotation(), cfg.dirs));
      result := result + directions;
      padData := result;
    }

    /** Reloading a game leaves the Lynx input state as it was. */
    method OnPostLoad()
      ensures unchanged(this)
    {
    }
  }
}
