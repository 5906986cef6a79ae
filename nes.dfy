/**
 * The NES front-end.  Every frame it first advances the disk-flip countdown,
 * then translates the four controller slots into four 16-bit pad words.  A
 * logical button flagged special does not reach a pad word: its press edge
 * inserts a coin on a VS Unisystem game, or starts the disk-flip sequence
 * (eject, select, insert) on a disk game.  The countdown and the press-edge
 * detector are process-wide state, reset whenever a game is (re)loaded.
 *
 * The calls into the emulation core (disk eject/select/insert, coin) and the
 * exit request are returned as a list of events, in the order they are made.
 */
module Nes {
  import opened Controls

  datatype Event = DiskEject | DiskSelect | DiskInsert(oride: int) | VsCoin | ExitRequested

  /** What the loaded game is: a VS Unisystem game, a disk (FDS) game. */
  datatype Game = Game(isVsUni: bool, isDisk: bool)

  /** The loaded game, its database entry (NES_BUTTONS with their map rows), BTN_RAPID/NES_SPECIAL, host constants and NES_UP/LEFT/DOWN/RIGHT. */
  datatype Config = Config(game: Game, bindings: seq<Binding>, flags: Flags, hw: Hardware, dirs: DirBits)

  /** The disk-flip countdown and the special-button edge detector. */
  datatype SpecialState = SpecialState(flipdisk: nat, specialheld: bool)

  /** The countdown a press edge starts, and the counts at which the three disk actions fire. */
  const FlipStart: nat := 30
  const EjectAt: nat := 30
  const SelectAt: nat := 20
  const InsertAt: nat := 10

  /** The disk action the countdown block makes at a count. */
  function CountdownEvents(flipdisk: nat): (r: seq<Event>)
    ensures |r| <= 1 && VsCoin !in r && ExitRequested !in r
    ensures DiskEject in r <==> flipdisk == EjectAt
    ensures DiskSelect in r <==> flipdisk == SelectAt
    ensures DiskInsert(-1) in r <==> flipdisk == InsertAt
    ensures r == [] <==> flipdisk != EjectAt && flipdisk != SelectAt && flipdisk != InsertAt
  {
    if flipdisk == EjectAt then [DiskEject]
    else if flipdisk == SelectAt then [DiskSelect]
    else if flipdisk == InsertAt then [DiskInsert(-1)]
    else []
  }

  /** A slot asserts some special button this frame. */
  predicate SlotSpecial(s: Sample, cfg: Config)
  {
    exists i :: 0 <= i < |cfg.bindings| && IsSpecialPress(s, cfg.bindings[i], cfg.flags)
  }

  /** Some slot asserts a special button this frame. */
  predicate AnySpecial(samples: seq<Sample>, cfg: Config)
  {
    exists c :: 0 <= c < |samples| && SlotSpecial(samples[c], cfg)
  }

  /** The outcome of one frame of the special machine: the new state, the disk actions, and whether a coin is inserted. */
  datatype Outcome = Outcome(next: SpecialState, disk: seq<Event>, coin: bool)

  /** A special press edge starts the disk countdown: detector clear, a disk game that is not VS Unisystem, countdown run out. */
  predicate Starts(held0: bool, counted: nat, game: Game)
  {
    !held0 && !game.isVsUni && game.isDisk && counted == 0
  }

  /**
   * One frame of the special machine, given whether any slot asserts a
   * special button.  The countdown runs first; a press edge then inserts a
   * coin (VS Unisystem) or, on a disk game whose countdown has run out,
   * restarts it at 30.
   */
  function SpecialStep(st: SpecialState, game: Game, special: bool): (r: Outcome)
    requires st.flipdisk <= FlipStart
    ensures DiskEject in r.disk <==> st.flipdisk == EjectAt
    ensures DiskSelect in r.disk <==> st.flipdisk == SelectAt
    ensures DiskInsert(-1) in r.disk <==> st.flipdisk == InsertAt
    ensures |r.disk| <= 1 && VsCoin !in r.disk && ExitRequested !in r.disk
    ensures st.flipdisk != EjectAt && st.flipdisk != SelectAt && st.flipdisk != InsertAt ==> r.disk == []
    ensures st.flipdisk > 1 ==> r.next.flipdisk == st.flipdisk - 1
    ensures r.next.flipdisk == FlipStart <==>
      special && !st.specialheld && !game.isVsUni && game.isDisk && st.flipdisk <= 1
    ensures st.flipdisk <= 1 && r.next.flipdisk != FlipStart ==> r.next.flipdisk == 0
    ensures r.next.flipdisk <= FlipStart
    ensures r.next.specialheld == special
    ensures r.coin <==> special && !st.specialheld && game.isVsUni
  {
    var counted := if st.flipdisk != 0 then st.flipdisk - 1 else 0;
    var edge := special && !st.specialheld;
    Outcome(
      SpecialState(if special && Starts(st.specialheld, counted, game) then FlipStart else counted, special),
      CountdownEvents(st.flipdisk),
      edge && game.isVsUni)
  }

  /** A slot's pad word: its mapped buttons and its directions, with no rotation. */
  function NesPad(s: Sample, cfg: Config, isRapid: bool): Word
  {
    MappedWord(s, cfg.bindings, cfg.flags, isRapid) + DirectionWord(s, cfg.hw, cfg.dirs)
  }

  /** The place of an event within a frame: the disk action first, then the exit request, then the coin. */
  function Rank(e: Event): nat
  {
    match e
    case DiskEject => 0
    case DiskSelect => 0
    case DiskInsert(_) => 0
    case ExitRequested => 1
    case VsCoin => 2
  }

  /** Three pieces of at most one event each, of ranks 0, 1 and 2, concatenate in rank order. */
  lemma RankedFrame(disk: seq<Event>, exit: seq<Event>, coin: seq<Event>)
    requires |disk| <= 1 && |exit| <= 1 && |coin| <= 1
    requires forall e :: e in disk ==> Rank(e) == 0
    requires forall e :: e in exit ==> Rank(e) == 1
    requires forall e :: e in coin ==> Rank(e) == 2
    ensures forall e :: e in disk + exit + coin <==> e in disk || e in exit || e in coin
    ensures forall i, j :: 0 <= i < j < |disk + exit + coin| ==>
      Rank((disk + exit + coin)[i]) < Rank((disk + exit + coin)[j])
  {
    var r := disk + exit + coin;
    forall i | 0 <= i < |r|
      ensures Rank(r[i]) == if i < |disk| then 0 else if i < |disk| + |exit| then 1 else 2
    {
      if i < |disk| {
        assert r[i] in disk;
      } else if i < |disk| + |exit| {
        assert r[i] == exit[i - |disk|];
      } else {
        assert r[i] == coin[i - |disk| - |exit|];
      }
    }
  }

  /**
   * The events of one frame given its two inputs: whether some slot asserts
   * a special button and whether slot 0's home check holds.
   */
  function FrameOf(st: SpecialState, game: Game, special: bool, home: bool): (r: seq<Event>)
    requires st.flipdisk <= FlipStart
    ensures ExitRequested in r <==> home
    ensures DiskEject in r <==> st.flipdisk == EjectAt
    ensures DiskSelect in r <==> st.flipdisk == SelectAt
    ensures DiskInsert(-1) in r <==> st.flipdisk == InsertAt
    ensures VsCoin in r <==> special && !st.specialheld && game.isVsUni
    ensures forall e :: e in r ==> e in [DiskEject, DiskSelect, DiskInsert(-1), ExitRequested, VsCoin]
    ensures forall i, j :: 0 <= i < j < |r| ==> Rank(r[i]) < Rank(r[j])
  {
    var o := SpecialStep(st, game, special);
    var exit := if home then [ExitRequested] else [];
    var coin := if o.coin then [VsCoin] else [];
    RankedFrame(o.disk, exit, coin);
    o.disk + exit + coin
  }

  /** The events of one frame: the disk action, then the exit request (slot 0 only), then the coin. */
  function FrameEvents(st: SpecialState, samples: seq<Sample>, hwButton: bool, cfg: Config): (r: seq<Event>)
    requires st.flipdisk <= FlipStart && |samples| > 0
    ensures ExitRequested in r <==> HomePressed(samples[0], cfg.hw, hwButton)
    ensures DiskEject in r <==> st.flipdisk == EjectAt
    ensures DiskSelect in r <==> st.flipdisk == SelectAt
    ensures DiskInsert(-1) in r <==> st.flipdisk == InsertAt
    ensures VsCoin in r <==> AnySpecial(samples, cfg) && !st.specialheld && cfg.game.isVsUni
    ensures forall e :: e in r ==> e in [DiskEject, DiskSelect, DiskInsert(-1), ExitRequested, VsCoin]
    ensures forall i, j :: 0 <= i < j < |r| ==> Rank(r[i]) < Rank(r[j])
  {
    FrameOf(st, cfg.game, AnySpecial(samples, cfg), HomePressed(samples[0], cfg.hw, hwButton))
  }

  /*
   * Several frames of the special machine, one boolean per frame saying
   * whether any slot asserted a special button in it.
   */

  /** The state after a run of frames. */
  function Run(st: SpecialState, game: Game, presses: seq<bool>): (r: SpecialState)
    requires st.flipdisk <= FlipStart
    ensures r.flipdisk <= FlipStart
    decreases |presses|
  {
    if presses == [] then st else Run(SpecialStep(st, game, presses[0]).next, game, presses[1..])
  }

  /** The disk actions made during a run of frames, in order. */
  function DiskLog(st: SpecialState, game: Game, presses: seq<bool>): seq<Event>
    requires st.flipdisk <= FlipStart
    decreases |presses|
  {
    if presses == [] then []
    else SpecialStep(st, game, presses[0]).disk + DiskLog(SpecialStep(st, game, presses[0]).next, game, presses[1..])
  }

  /** The number of coins inserted during a run of frames. */
  function Coins(st: SpecialState, game: Game, presses: seq<bool>): nat
    requires st.flipdisk <= FlipStart
    decreases |presses|
  {
    if presses == [] then 0
    else (if SpecialStep(st, game, presses[0]).coin then 1 else 0) +
         Coins(SpecialStep(st, game, presses[0]).next, game, presses[1..])
  }

  /** The disk actions still to come when the countdown stands at `k`. */
  function Pending(k: nat): seq<Event>
  {
    (if k >= EjectAt then [DiskEject] else []) +
    (if k >= SelectAt then [DiskSelect] else []) +
    (if k >= InsertAt then [DiskInsert(-1)] else [])
  }

  /** The number of press edges in a run: frames with a press whose previous frame had none. */
  function Edges(held: bool, presses: seq<bool>): nat
    decreases |presses|
  {
    if presses == [] then 0 else (if presses[0] && !held then 1 else 0) + Edges(presses[0], presses[1..])
  }

  /**
   * A running countdown is not restarted: whatever is pressed, `j` frames
   * after the countdown stood at `k` it stands at `k - j`.
   */
  lemma {:induction false} CountdownNotRestarted(st: SpecialState, game: Game, presses: seq<bool>)
    requires 1 <= st.flipdisk <= FlipStart && |presses| < st.flipdisk
    ensures Run(st, game, presses).flipdisk == st.flipdisk - |presses|
    decreases |presses|
  {
    if presses != [] {
      CountdownNotRestarted(SpecialStep(st, game, presses[0]).next, game, presses[1..]);
    }
  }

  /**
   * Once started, the countdown makes exactly the disk actions still
   * pending, in order, over the frames it has left, whatever is pressed in
   * them.
   */
  lemma {:induction false} CountdownRunsOut(st: SpecialState, game: Game, presses: seq<bool>)
    requires 1 <= st.flipdisk <= FlipStart && |presses| == st.flipdisk
    ensures DiskLog(st, game, presses) == Pending(st.flipdisk)
    decreases |presses|
  {
    var o := SpecialStep(st, game, presses[0]);
    if st.flipdisk == 1 {
      assert presses[1..] == [];
    } else {
      CountdownRunsOut(o.next, game, presses[1..]);
      assert CountdownEvents(st.flipdisk) + Pending(st.flipdisk - 1) == Pending(st.flipdisk);
    }
  }

  /** A press edge on a disk game whose countdown has run out: eject, select and insert follow in the next 30 frames. */
  lemma DiskFlipSequence(st: SpecialState, game: Game, presses: seq<bool>)
    requires st.flipdisk <= 1 && !st.specialheld && game.isDisk && !game.isVsUni
    requires |presses| == FlipStart + 1 && presses[0]
    ensures DiskLog(st, game, presses) == [DiskEject, DiskSelect, DiskInsert(-1)]
  {
    var o := SpecialStep(st, game, presses[0]);
    CountdownRunsOut(o.next, game, presses[1..]);
  }

  /** A coin is inserted on every press edge of a VS Unisystem game and on no other frame. */
  lemma {:induction false} CoinPerEdge(st: SpecialState, game: Game, presses: seq<bool>)
    requires st.flipdisk <= FlipStart
    ensures Coins(st, game, presses) == if game.isVsUni then Edges(st.specialheld, presses) else 0
    decreases |presses|
  {
    if presses != [] {
      CoinPerEdge(SpecialStep(st, game, presses[0]).next, game, presses[1..]);
    }
  }

  /** Holding the special button through a run of frames inserts one coin at most. */
  lemma {:induction false} HoldingInsertsOneCoin(held: bool, presses: seq<bool>)
    requires forall f :: 0 <= f < |presses| ==> presses[f]
    ensures Edges(held, presses) == if !held && |presses| > 0 then 1 else 0
    decreases |presses|
  {
    if presses != [] {
      HoldingInsertsOneCoin(presses[0], presses[1..]);
    }
  }

  /** After a load, with the special button never pressed, no disk action is made and the countdown stays 0. */
  lemma {:induction false} QuietAfterLoad(game: Game, presses: seq<bool>)
    requires forall f :: 0 <= f < |presses| ==> !presses[f]
    ensures DiskLog(SpecialState(0, false), game, presses) == []
    ensures Run(SpecialState(0, false), game, presses) == SpecialState(0, false)
    decreases |presses|
  {
    if presses != [] {
      QuietAfterLoad(game, presses[1..]);
    }
  }

  /** A VS Unisystem game never starts a disk countdown. */
  lemma {:induction false} VsUniNeverFlips(st: SpecialState, game: Game, presses: seq<bool>)
    requires st.flipdisk == 0 && game.isVsUni
    ensures Run(st, game, presses).flipdisk == 0 && DiskLog(st, game, presses) == []
    decreases |presses|
  {
    if presses != [] {
      VsUniNeverFlips(SpecialStep(st, game, presses[0]).next, game, presses[1..]);
    }
  }

  /**
   * What the slot loop has done after `c` slots, with `now` the countdown and
   * edge detector: the special flag, the detector, the countdown, and the
   * events so far (disk action, exit request from slot 0, coin).
   */
  ghost predicate SlotsDone(c: nat, samples: seq<Sample>, hwButton: bool, cfg: Config, start: SpecialState,
                            counted: nat, special: bool, events: seq<Event>, now: SpecialState)
  {
    c <= |samples| && start.flipdisk <= FlipStart &&
    counted == (if start.flipdisk != 0 then start.flipdisk - 1 else 0) &&
    (special <==> exists k :: 0 <= k < c && SlotSpecial(samples[k], cfg)) &&
    now.specialheld == (start.specialheld || special) &&
    now.flipdisk == (if special && Starts(start.specialheld, counted, cfg.game) then FlipStart else counted) &&
    events == CountdownEvents(start.flipdisk) +
              (if c > 0 && HomePressed(samples[0], cfg.hw, hwButton) then [ExitRequested] else []) +
              (if special && !start.specialheld && cfg.game.isVsUni then [VsCoin] else [])
  }

  /** Translating slot `c` as the slot body does advances the loop's progress by one slot. */
  lemma SlotAdvance(c: nat, samples: seq<Sample>, hwButton: bool, cfg: Config, start: SpecialState, counted: nat,
                    special: bool, events: seq<Event>, now: SpecialState,
                    special': bool, events': seq<Event>, now': SpecialState)
    requires c < |samples| && SlotsDone(c, samples, hwButton, cfg, start, counted, special, events, now)
    requires special' <==> special || SlotSpecial(samples[c], cfg)
    requires now'.specialheld == (start.specialheld || special')
    requires now'.flipdisk == if special' && Starts(start.specialheld, counted, cfg.game) then FlipStart else counted
    requires events' == events + (if c == 0 && HomePressed(samples[c], cfg.hw, hwButton) then [ExitRequested] else []) +
                        (if special' && !special && !start.specialheld && cfg.game.isVsUni then [VsCoin] else [])
    ensures SlotsDone(c + 1, samples, hwButton, cfg, start, counted, special', events', now')
  {
    assert c == 0 ==> !special;
    assert special' <==> exists k :: 0 <= k < c + 1 && SlotSpecial(samples[k], cfg);
  }

  /** The NES input state: the disk-flip countdown, the special-button edge detector and the four pad words. */
  class NesInput {
    var flipdisk: nat
    var specialheld: bool
    const padData: array<Word>

    ghost predicate Valid()
      reads this
    {
      padData.Length == 4 && flipdisk <= FlipStart
    }

    function State(): SpecialState
      reads this
    {
      SpecialState(flipdisk, specialheld)
    }

    constructor ()
      ensures Valid() && fresh(padData)
      ensures State() == SpecialState(0, false)
    {
      flipdisk := 0;
      specialheld := false;
      padData := new Word[4];
    }

    /**
     * One frame for the four controller samples.  The new countdown and edge
     * detector are those of the special machine, the events are the frame's
     * events, and each pad word depends on its own slot's sample alone.
     */
    method UpdateControls(isRapid: bool, samples: seq<Sample>, hwButton: bool, cfg: Config)
      returns (events: seq<Event>)
      requires Valid() && |samples| == 4
      modifies this, padData
      ensures Valid()
      ensures State() == SpecialStep(old(State()), cfg.game, AnySpecial(samples, cfg)).next
      ensures events == FrameEvents(old(State()), samples, hwButton, cfg)
      ensures forall c :: 0 <= c < 4 ==> padData[c] == NesPad(samples[c], cfg, isRapid)
    {
      ghost var start := State();
      events := [];
      if flipdisk != 0 {
        if flipdisk == EjectAt {
          events := [DiskEject];
        } else if flipdisk == SelectAt {
          events := [DiskSelect];
        } else if flipdisk == InsertAt {
          events := [DiskInsert(-1)];
        }
        flipdisk := flipdisk - 1;
      }
      ghost var counted := flipdisk;

      var special := false;
      var c := 0;
      while c < 4
        invariant 0 <= c <= 4
        invariant SlotsDone(c, samples, hwButton, cfg, start, counted, special, events, State())
        invariant PadsDone(c, samples, isRapid, cfg)
      {
        special, events := Slot(c, samples, isRapid, hwButton, cfg, special, events, start, counted);
        c := c + 1;
      }

      if !special {
        specialheld := false;
      }
    }

    /** The pad words of the first `c` slots are stored. */
    ghost predicate PadsDone(c: nat, samples: seq<Sample>, isRapid: bool, cfg: Config)
      reads padData
    {
      c <= |samples| && c <= padData.Length &&
      forall k :: 0 <= k < c ==> padData[k] == NesPad(samples[k], cfg, isRapid)
    }

    /** One turn of the slot loop: translate slot `c` and store its pad word. */
    method Slot(c: nat, samples: seq<Sample>, isRapid: bool, hwButton: bool, cfg: Config,
                special: bool, events: seq<Event>, ghost start: SpecialState, ghost counted: nat)
      returns (special': bool, events': seq<Event>)
      requires c < |samples| && c < padData.Length
      requires SlotsDone(c, samples, hwButton, cfg, start, counted, special, events, State())
      requires PadsDone(c, samples, isRapid, cfg)
      modifies this, padData
      ensures SlotsDone(c + 1, samples, hwButton, cfg, start, counted, special', events', State())
      ensures PadsDone(c + 1, samples, isRapid, cfg)
    {
      var result;
      result, special', events' := TranslateSlot(c, samples[c], isRapid, hwButton, cfg, special, events,
                                                 start.specialheld, counted);
      SlotAdvance(c, samples, hwButton, cfg, start, counted, special, events, old(State()), special', events', State());
      StorePad(c, samples, isRapid, cfg, result);
    }

    /** Stores slot `c`'s pad word. */
    method StorePad(c: nat, samples: seq<Sample>, isRapid: bool, cfg: Config, result: Word)
      requires c < |samples| && c < padData.Length
      requires PadsDone(c, samples, isRapid, cfg) && result == NesPad(samples[c], cfg, isRapid)
      modifies padData
      ensures PadsDone(c + 1, samples, isRapid, cfg)
    {
      padData[c] := result;
    }

    /**
     * The body of the slot loop: the home check (slot 0 only), the mapped
     * buttons, then the directions.
     */
    method TranslateSlot(c: nat, s: Sample, isRapid: bool, hwButton: bool, cfg: Config,
                         special: bool, events: seq<Event>, ghost held0: bool, ghost counted: nat)
      returns (pad: Word, special': bool, events': seq<Event>)
      requires counted <= FlipStart
      requires specialheld == (held0 || special)
      requires flipdisk == if special && Starts(held0, counted, cfg.game) then FlipStart else counted
      modifies this
      ensures pad == NesPad(s, cfg, isRapid)
      ensures special' <==> special || SlotSpecial(s, cfg)
      ensures specialheld == (held0 || special')
      ensures flipdisk == if special' && Starts(held0, counted, cfg.game) then FlipStart else counted
      ensures events' == events + (if c == 0 && HomePressed(s, cfg.hw, hwButton) then [ExitRequested] else []) +
                         (if special' && !special && !held0 && cfg.game.isVsUni then [VsCoin] else [])
    {
      events' := events;
      if c == 0 {
        if Meets(s.pressed, cfg.hw.wiiHome) || Meets(s.gcPressed, cfg.hw.gcHome) || hwButton {
          events' := events' + [ExitRequested];
        }
      }
      var mapped;
      mapped, special', events' := MapSlot(s, isRapid, cfg, special, events', held0, counted);
      var directions := ResolveDirections(s, cfg.hw, cfg.dirs);
      pad := mapped + directions;
    }

    /**
     * The mapped-button loop of one slot.  A special button sets `special`
     * and, on the first special press since the detector was last clear,
     * inserts a coin (VS Unisystem) or starts the disk countdown (disk game,
     * countdown run out); any other asserted button ORs its low 16 bits into
     * the word unless it is rapid-fire on a non-rapid frame.
     */
    method MapSlot(s: Sample, isRapid: bool, cfg: Config, special: bool, events: seq<Event>,
                   ghost held0: bool, ghost counted: nat)
      returns (result: Word, special': bool, events': seq<Event>)
      requires counted <= FlipStart
      requires specialheld == (held0 || special)
      requires flipdisk == if special && Starts(held0, counted, cfg.game) then FlipStart else counted
      modifies this
      ensures result == MappedWord(s, cfg.bindings, cfg.flags, isRapid)
      ensures special' <==> special || SlotSpecial(s, cfg)
      ensures specialheld == (held0 || special')
      ensures flipdisk == if special' && Starts(held0, counted, cfg.game) then FlipStart else counted
      ensures events' == events + (if special' && !special && !held0 && cfg.game.isVsUni then [VsCoin] else [])
    {
      result, special', events' := {}, special, events;
      var i := 0;
      while i < |cfg.bindings|
        invariant 0 <= i <= |cfg.bindings|
        invariant result == MappedWord(s, cfg.bindings[..i], cfg.flags, isRapid)
        invariant special' <==> special || exists j :: 0 <= j < i && IsSpecialPress(s, cfg.bindings[j], cfg.flags)
        invariant specialheld == (held0 || special')
        invariant flipdisk == if special' && Starts(held0, counted, cfg.game) then FlipStart else counted
        invariant events' == events + (if special' && !special && !held0 && cfg.game.isVsUni then [VsCoin] else [])
      {
        var b := cfg.bindings[i];
        if Asserted(s, b) {
          var val := b.button;
          if Meets(val, cfg.flags.special) {
            special' := true;
            if !specialheld {
              specialheld := true;
              if cfg.game.isVsUni {
                events' := events' + [VsCoin];
              } else if cfg.game.isDisk && flipdisk == 0 {
                flipdisk := FlipStart;
              }
            }
          } else {
            if !Meets(val, cfg.flags.rapid) || isRapid {
              result := result + Low16(val);
            }
          }
        }
        assert cfg.bindings[..i + 1][..i] == cfg.bindings[..i];
        i := i + 1;
      }
      assert cfg.bindings[..i] == cfg.bindings;
    }

    /** Loading a game or a save state abandons any running sequence and forgets a held special button. */
    method OnPostLoad()
      requires Valid()
      modifies this
      ensures Valid() && State() == SpecialState(0, false)
    {
      flipdisk := 0;
      specialheld := false;
    }
  }
}
