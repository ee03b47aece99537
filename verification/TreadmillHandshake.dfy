/** What holds of every run, whether or not its flips start with dark registers: the handshake of
    the flip, the end of the scan, and the conservation of cells. */
module TreadmillHandshake {
  import opened TreadmillArcs
  import opened TreadmillRun

  datatype Option<T> = None | Some(value: T)

  // ---------------------------------------------------------------------------
  // Runs
  // ---------------------------------------------------------------------------

  /** After `scheme_init`: all cells in use are black, the scanner thread is about to start. */
  ghost predicate Start(s: State) {
    && Structure(s)
    && Idle(s) && s.scanner.Boot? && !s.finished && !s.flipActive
    && s.arcs.grey == []
    && (forall r | r in s.Roots() :: r in s.arcs.black)
    && (forall c, j | c in s.heap && c in s.arcs.black && 0 <= j < |s.heap[c]| :: s.heap[c][j] in s.arcs.black)
    && (forall c, j | c in s.heap && c in s.arcs.ecru && 0 <= j < |s.heap[c]| :: s.arcs.Live(s.heap[c][j]))
  }

  /** Runs the steps in order; nothing if one of them cannot be taken. */
  function Play(s: State, steps: seq<Step>): Option<State>
    decreases |steps|
  {
    if steps == [] then Some(s)
    else if Enabled(s, steps[0]) then Play(Apply(s, steps[0]), steps[1..])
    else None
  }

  // ---------------------------------------------------------------------------
  // What every step keeps
  // ---------------------------------------------------------------------------

  /** The empty list is in use, and dark unless a flip is still to mark it. */
  predicate NilKept(s: State) {
    && s.arcs.Live(s.nil)
    && (s.mutator.Flipped? || s.mutator.Marking? || s.arcs.Dark(s.nil))
    && (s.mutator.Marking? ==> s.arcs.Dark(s.nil) || s.nil in s.mutator.todo)
  }

  /** How far the scanner is with its cell. */
  predicate Counters(s: State) {
    s.scanner.InCell? ==>
      && s.arcs.grey != []
      && s.Scanned() in s.heap
      && s.scanner.done <= |s.scanner.snap| <= |s.heap[s.Scanned()]|
  }

  /** The link that an allocation has read is still right, or the scanner has taken the cell it names. */
  predicate LinkKept(s: State) {
    s.pending.Taking? ==>
      && s.arcs.white != []
      && (s.pending.link == Link(s.arcs) || (|s.arcs.white| == 1 && s.arcs.Dark(s.pending.link)))
  }

  ghost predicate Shell(s: State) {
    Structure(s) && Protocol(s) && NilKept(s) && Counters(s) && LinkKept(s)
  }

  lemma StartShell(s: State)
    requires Start(s)
    ensures Shell(s)
  {
    assert s.nil in s.Roots();
  }

  /** No pointer is written and no cell moves. */
  lemma FlagsKeepShell(s: State, step: Step)
    requires Shell(s) && Enabled(s, step)
    requires step.Load? || step.Keep? || step.ReadLink? || step.BeginFlip? || step.SeeFinished? || step.StartMark?
          || step.EndMark? || step.Signal? || step.Resume?
    ensures Shell(Apply(s, step))
  {
    assert s.nil in s.Roots();
  }

  lemma ReadingKeepsShell(s: State, step: Step)
    requires Shell(s) && Enabled(s, step) && step.ReadChild?
    ensures Shell(Apply(s, step))
  {
    assert s.Scanned() in s.arcs.grey;
  }

  lemma ScannerKeepsShell(s: State, step: Step)
    requires Shell(s) && Enabled(s, step) && MovesScanner(step)
    ensures Shell(Apply(s, step))
  {
    var t := Apply(s, step);
    ScannerProtocol(s, step);
    if t.scanner.InCell? {
      assert t.Scanned() in t.arcs.grey;
    }
  }

  lemma WritingKeepsShell(s: State, step: Step)
    requires Shell(s) && Enabled(s, step)
    requires step.WriteShaded? || step.WriteStore?
    ensures Shell(Apply(s, step))
  {
  }

  lemma LinkShaded(a: Arcs<Cell>, p: Cell, link: Cell)
    requires a.Distinct() && a.white != [] && |a.ecru| >= 2 && p in a.ecru
    requires link == Link(a) || (|a.white| == 1 && a.Dark(link))
    ensures link == Link(Shade(a, p)) || (|a.white| == 1 && Shade(a, p).Dark(link))
  {
    ShadeConserves(a, p);
    if |a.white| == 1 && link == Link(a) && a.ecru[0] != p {
      assert a.Ring()[1] == a.ecru[0];
      assert Shade(a, p).Ring()[1] == Shade(a, p).ecru[0] == a.ecru[0];
    }
  }

  lemma ShadingKeepsShell(s: State, p: Cell, step: Step)
    requires Shell(s) && Enabled(s, step) && s.CanShade(p)
    requires step.ShadeStore? || step.ShadeWritten? || step.MarkRoot? || step.ShadeChild?
    requires Apply(s, step).arcs == Shade(s.arcs, p)
    requires step.MarkRoot? ==> p == s.mutator.todo[0]
    ensures Shell(Apply(s, step))
  {
    var t := Apply(s, step);
    ShadeKeeps(s, p, t);
    if step.MarkRoot? && s.nil == p {
      assert t.arcs.Dark(p);
    }
    if s.pending.Taking? && p in s.arcs.ecru {
      LinkShaded(s.arcs, p, s.pending.link);
    }
  }

  lemma AllocKeepsShell(s: State, step: Step)
    requires Shell(s) && Enabled(s, step) && step.TakeFree?
    ensures Shell(Apply(s, step))
  {
    var t := Apply(s, step);
    AllocateConserves(s.arcs);
    SameCells(s.arcs, t.arcs);
    Apart(s.arcs, s.arcs.white[0]);
    if s.arcs.grey != [] {
      assert s.Scanned() in s.arcs.grey && t.Scanned() == s.Scanned() != s.arcs.white[0];
    }
  }

  lemma AdvanceKeepsShell(s: State, step: Step)
    requires Shell(s) && Enabled(s, step) && step.AdvanceScan?
    ensures Shell(Apply(s, step))
  {
    var t := Apply(s, step);
    AdvanceConserves(s.arcs);
    SameCells(s.arcs, t.arcs);
    LinkAdvanced(s.arcs);
  }

  lemma LinkAdvanced(a: Arcs<Cell>)
    requires a.grey != [] && a.ecru != []
    ensures a.white != [] ==> Link(Advance(a)) == Link(a)
  {
  }

  lemma ToggleKeepsShell(s: State, step: Step)
    requires Shell(s) && Enabled(s, step) && step.Toggle?
    ensures Shell(Apply(s, step))
  {
    var t := Apply(s, step);
    ToggleStructure(s, step);
    assert s.nil in s.arcs.black;
  }

  /** Any step of any run keeps the shell. */
  lemma StepKeepsShell(s: State, step: Step)
    requires Shell(s) && Enabled(s, step)
    ensures Shell(Apply(s, step))
  {
    match step
    case ShadeStore(_, _, p) => ShadingKeepsShell(s, p, step);
    case WriteShaded => WritingKeepsShell(s, step);
    case WriteStore(_, _, _) => WritingKeepsShell(s, step);
    case ShadeWritten => ShadingKeepsShell(s, s.pending.p, step);
    case TakeFree(_) => AllocKeepsShell(s, step);
    case Toggle(_) => ToggleKeepsShell(s, step);
    case MarkRoot => ShadingKeepsShell(s, s.mutator.todo[0], step);
    case ShadeChild => ShadingKeepsShell(s, s.scanner.snap[s.scanner.done], step);
    case ReadChild => ReadingKeepsShell(s, step);
    case AdvanceScan(_) => AdvanceKeepsShell(s, step);
    case _ => OthersKeepShell(s, step);
  }

  lemma OthersKeepShell(s: State, step: Step)
    requires Shell(s) && Enabled(s, step)
    requires MovesScanner(step) || step.Load? || step.Keep? || step.ReadLink? || step.BeginFlip? || step.SeeFinished?
          || step.StartMark? || step.EndMark? || step.Signal? || step.Resume?
    ensures Shell(Apply(s, step))
  {
    if MovesScanner(step) {
      ScannerKeepsShell(s, step);
    } else {
      FlagsKeepShell(s, step);
    }
  }

  lemma {:induction false} RunKeepsShell(s: State, steps: seq<Step>, t: State)
    requires Shell(s) && Play(s, steps) == Some(t)
    ensures Shell(t)
    decreases |steps|
  {
    if steps != [] {
      StepKeepsShell(s, steps[0]);
      RunKeepsShell(Apply(s, steps[0]), steps[1..], t);
    }
  }

  // ---------------------------------------------------------------------------
  // Allocation beside the scanner
  // ---------------------------------------------------------------------------

  /** An allocation that has read its link can go on exactly if that link is not stale: there are other
      free cells, or the scanner has not taken the cell at `bottom` in the meantime. */
  lemma LinkIsGoodIff(s: State, n: nat)
    requires Shell(s) && s.mutator.Running? && s.pending.Taking?
    ensures Enabled(s, TakeFree(n)) <==> !(|s.arcs.white| == 1 && s.arcs.Dark(s.pending.link))
  {
    var a, link := s.arcs, s.pending.link;
    if |a.white| == 1 && a.Dark(link) {
      assert a.Ring()[1] == a.ecru[0];
      Apart(a, link);
      assert a.ecru[0] in a.ecru;
    }
  }

  // ---------------------------------------------------------------------------
  // Conservation
  // ---------------------------------------------------------------------------

  /** Nothing is lost, copied or invented: a step leaves every cell on the ring as often as it was,
      but for the cells that a growth adds; and a flip frees exactly the ecru cells. */
  lemma StepConserves(s: State, step: Step)
    requires Shell(s) && Enabled(s, step)
    ensures forall c :: Apply(s, step).arcs.Count(c)
                     == s.arcs.Count(c) + if step.Toggle? then multiset(step.added)[c] else 0
    ensures step.Toggle? ==> forall c :: c in Apply(s, step).arcs.white <==> c in s.arcs.ecru || c in step.added
  {
    match step
    case TakeFree(_) => AllocateConserves(s.arcs);
    case ShadeStore(_, _, p) => ShadeConserves(s.arcs, p);
    case ShadeWritten => ShadeConserves(s.arcs, s.pending.p);
    case MarkRoot => ShadeConserves(s.arcs, s.mutator.todo[0]);
    case ShadeChild => ShadeConserves(s.arcs, s.scanner.snap[s.scanner.done]);
    case AdvanceScan(_) => AdvanceConserves(s.arcs);
    case Toggle(added) =>
      FlipConserves(s.arcs);
      GrowConserves(Flip(s.arcs), added);
    case _ =>
  }

  // ---------------------------------------------------------------------------
  // The handshake
  // ---------------------------------------------------------------------------

  /** From the moment the mutator sees `treadmill_scanner_finished` until it clears
      `treadmill_flip_active`, the scanner is parked at its wait and touches nothing. */
  lemma FlipExcludesScanner(s: State, steps: seq<Step>, t: State)
    requires Start(s) && Play(s, steps) == Some(t)
    requires t.InFlip()
    ensures t.scanner.Finished? || t.scanner.Waiting?
    ensures forall step | Enabled(t, step) && Apply(t, step).scanner != t.scanner :: step.Wait?
  {
    StartShell(s);
    RunKeepsShell(s, steps, t);
    forall step | Enabled(t, step) && Apply(t, step).scanner != t.scanner
      ensures step.Wait?
    {
      OnlyParks(t, step);
    }
  }

  lemma OnlyParks(s: State, step: Step)
    requires Protocol(s) && s.InFlip() && Enabled(s, step) && Apply(s, step).scanner != s.scanner
    ensures step.Wait?
  {
  }

  /** This rests on the absence of spurious wakeups: if the wait ended by itself while the mutator
      is about to exchange the arcs, the scanner could be scanning at that moment. */
  lemma SpuriousWakeupBreaksExclusion(s: State)
    requires Shell(s) && s.mutator.Flipping? && s.scanner.Waiting?
    ensures exists steps ::
              var end := Play(s.(scanner := Woken), steps);
              end.Some? && end.value.mutator.Flipping? && end.value.ScannerHoldsMutex() && !end.value.finished
  {
    var w := s.(scanner := Woken);
    var steps := [RelockWoken, ClearFinished];
    assert steps[1..] == [ClearFinished] && steps[1..][1..] == [];
    var r := Apply(w, RelockWoken);
    assert Play(w, steps) == Play(r, [ClearFinished]) == Play(Apply(r, ClearFinished), []);
  }

  /** Steps that the scanner still has to make before it acknowledges the signal. */
  function WakeRank(s: State): nat {
    if !s.finished then 0
    else match s.scanner
      case Finished => 4
      case Waiting => 3
      case Woken => 2
      case _ => 1
  }

  /** The step that brings the acknowledgement nearer. */
  function WakeStep(s: State): Step {
    match s.scanner
    case Finished => Wait
    case Waiting => Signal
    case Woken => RelockWoken
    case _ => ClearFinished
  }

  /** A lost signal cannot block the two threads: a signal sent before the scanner waits changes
      nothing and can be sent again, no step makes the acknowledgement more distant, one step
      always brings it nearer, and once it has come the mutator goes on, with a free cell. */
  lemma WakingEnds(s: State)
    requires Shell(s) && s.mutator.Waking?
    ensures s.finished && !s.scanner.Waiting? ==> Enabled(s, Signal) && Apply(s, Signal) == s
    ensures forall step | Enabled(s, step) :: WakeRank(Apply(s, step)) <= WakeRank(s)
    ensures WakeRank(s) > 0 ==> Enabled(s, WakeStep(s)) && WakeRank(Apply(s, WakeStep(s))) < WakeRank(s)
    ensures WakeRank(s) == 0 <==> Enabled(s, Resume)
    ensures s.arcs.white != []
  {
  }

  // ---------------------------------------------------------------------------
  // The scan ends
  // ---------------------------------------------------------------------------

  function PcRank(s: State): nat {
    match s.scanner
    case Boot => 7
    case Reset => 6
    case Yield(inner) => if s.arcs.grey == [] then (if inner then 6 else 4) else (if inner then 5 else 6)
    case Outer => if s.arcs.grey == [] then 3 else 5
    case Inner => if s.arcs.grey == [] then 5 else 4
    case InCell(_, _) => 3
    case Leaving => 2
    case _ => 1
  }

  function CellRank(s: State): int {
    if s.scanner.InCell? && s.arcs.grey != [] && s.Scanned() in s.heap
    then 2 * |s.heap[s.Scanned()]| - s.scanner.done - |s.scanner.snap|
    else 0
  }

  function Work(s: State): nat {
    2 * |s.arcs.ecru| + |s.arcs.grey|
  }

  /** The measure of the scan, compared from left to right. */
  predicate LessWork(t: State, s: State) {
    || Work(t) < Work(s)
    || (Work(t) == Work(s) && PcRank(t) < PcRank(s))
    || (Work(t) == Work(s) && PcRank(t) == PcRank(s) && 0 <= CellRank(t) < CellRank(s))
  }

  /** What the scanner does next. */
  function ScanStep(s: State): Step {
    match s.scanner
    case Boot => Lock
    case Reset => ClearFinished
    case Outer => OuterCheck
    case Inner => InnerCheck
    case InCell(snap, done) =>
      if done < |snap| then ShadeChild
      else if s.arcs.grey != [] && s.HasSlot(s.Scanned(), |snap|) then ReadChild
      else AdvanceScan(false)
    case Yield(_) => Relock
    case Leaving => SetFinished
    case _ => Wait
  }

  lemma ScanMoves(s: State, step: Step)
    requires Shell(s) && s.mutator.AwaitScan? && !s.finished && Enabled(s, step)
    ensures LessWork(Apply(s, step), s)
  {
    var t := Apply(s, step);
    if step.ShadeChild? {
      var p := s.scanner.snap[s.scanner.done];
      ShadeKeeps(s, p, t);
      if p !in s.arcs.ecru {
        assert t.arcs == s.arcs;
      }
    } else if step.AdvanceScan? {
      assert Work(t) < Work(s);
    } else {
      assert t.arcs == s.arcs && t.heap == s.heap;
    }
  }

  lemma ScanNotStuck(s: State)
    requires Shell(s) && s.mutator.AwaitScan? && !s.finished
    ensures || Enabled(s, ScanStep(s))
            || (ScanStep(s).ShadeChild? && !s.CanShade(s.scanner.snap[s.scanner.done]))
  {
  }

  /** While the mutator waits for the scanner, every step that can be taken is a step of the
      scanner and brings the end of the scan nearer, and the scanner's next step can be taken
      (if it is an insertion, provided that two ecru cells are left).  So the wait ends, with no
      grey cell left. */
  lemma ScanEnds(s: State)
    requires Shell(s) && s.mutator.AwaitScan?
    ensures !s.finished ==> forall step | Enabled(s, step) :: LessWork(Apply(s, step), s)
    ensures !s.finished ==>
      || Enabled(s, ScanStep(s))
      || (ScanStep(s).ShadeChild? && !s.CanShade(s.scanner.snap[s.scanner.done]))
    ensures s.finished ==> s.arcs.grey == [] && Enabled(s, SeeFinished)
  {
    if !s.finished {
      ScanNotStuck(s);
      forall step | Enabled(s, step)
        ensures LessWork(Apply(s, step), s)
      {
        ScanMoves(s, step);
      }
    }
  }

  /** No cell has more than `most` pointers. */
  predicate Slim(s: State, most: nat) {
    forall c | c in s.heap :: |s.heap[c]| <= most
  }

  /** The measure as one number. */
  function Rank(s: State, most: nat): int {
    (8 * Work(s) + PcRank(s)) * (2 * most + 1) + CellRank(s)
  }

  lemma Weighed(a: int, x: int, b: int, y: int, m: int)
    requires 0 <= x < m && 0 <= y < m && 0 <= b && (b < a || (b == a && y < x))
    ensures 0 <= b * m + y < a * m + x
  {
    if b < a {
      assert (b + 1) * m <= a * m;
    }
    assert 0 <= b * m;
  }

  lemma RankFalls(s: State, t: State, most: nat)
    requires LessWork(t, s) && 0 <= CellRank(s) <= 2 * most && 0 <= CellRank(t) <= 2 * most
    ensures 0 <= Rank(t, most) < Rank(s, most)
  {
    assert PcRank(s) < 8 && PcRank(t) < 8;
    Weighed(8 * Work(s) + PcRank(s), CellRank(s), 8 * Work(t) + PcRank(t), CellRank(t), 2 * most + 1);
  }

  lemma CellRankBound(s: State, most: nat)
    requires Shell(s) && Slim(s, most)
    ensures 0 <= CellRank(s) <= 2 * most
  {
  }

  /** Every one of the steps is taken while the mutator waits for the scanner. */
  predicate Waits(s: State, steps: seq<Step>)
    decreases |steps|
  {
    steps != [] && Enabled(s, steps[0]) ==>
      s.mutator.AwaitScan? && !s.finished && Waits(Apply(s, steps[0]), steps[1..])
  }

  /** The mutator's wait is at most as long as the rank says, whoever takes which steps. */
  lemma {:induction false} WaitIsBounded(s: State, steps: seq<Step>, t: State, most: nat)
    requires Shell(s) && Slim(s, most) && Waits(s, steps) && Play(s, steps) == Some(t)
    ensures |steps| <= Rank(s, most)
    decreases |steps|
  {
    CellRankBound(s, most);
    if steps == [] {
      assert 0 <= (8 * Work(s) + PcRank(s)) * (2 * most + 1);
    } else {
      var s1 := Apply(s, steps[0]);
      WaitStep(s, steps[0], most);
      WaitIsBounded(s1, steps[1..], t, most);
    }
  }

  lemma WaitStep(s: State, step: Step, most: nat)
    requires Shell(s) && Slim(s, most) && s.mutator.AwaitScan? && !s.finished && Enabled(s, step)
    ensures Shell(Apply(s, step)) && Slim(Apply(s, step), most) && 0 <= Rank(Apply(s, step), most) < Rank(s, most)
  {
    StepKeepsShell(s, step);
    ScanMoves(s, step);
    assert Apply(s, step).heap == s.heap;
    CellRankBound(s, most);
    CellRankBound(Apply(s, step), most);
    RankFalls(s, Apply(s, step), most);
  }

  /** The wait can come to its end: by its own steps the scanner finishes, with no grey cell left and the
      mutator free to go on, unless it comes to an insertion with a single ecru cell. */
  lemma {:induction false} WaitEnds(s: State, most: nat) returns (steps: seq<Step>, t: State)
    requires Shell(s) && Slim(s, most) && s.mutator.AwaitScan?
    ensures Play(s, steps) == Some(t) && t.mutator.AwaitScan? && Shell(t)
    ensures || (t.finished && t.arcs.grey == [] && Enabled(t, SeeFinished))
            || (!t.finished && ScanStep(t).ShadeChild? && !t.CanShade(t.scanner.snap[t.scanner.done]))
    decreases if s.finished then 0 else 1 + Rank(s, most)
  {
    steps, t := [], s;
    if !s.finished && Enabled(s, ScanStep(s)) {
      var first := ScanStep(s);
      WaitStep(s, first, most);
      var rest;
      rest, t := WaitEnds(Apply(s, first), most);
      steps := [first] + rest;
      assert steps[1..] == rest;
    } else if !s.finished {
      ScanNotStuck(s);
    }
  }
}
