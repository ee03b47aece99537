/** The concurrent collector: one mutator thread, one scanner thread, any interleaving.

  A run is a start state and a list of labelled steps; every step is what one thread does
  between two points where the other may intervene.  The handshake of the flip
  (`treadmill_flip_active`, `treadmill_scanner_finished`, the signal and the mutex) is part of
  the state, so that mutual exclusion is proved here and not presumed.

  Three hypotheses the code makes about its surroundings are guards of the steps: an insertion
  finds at least two ecru cells, a wait on the condition variable ends only by a signal, and the
  link that an allocation has read is still right when it is used.  A fourth one, that the
  registers hold dark cells when a flip starts, is a property of a run; `FlipIsSafeIffRootsDark`
  shows that it is exactly what the flip needs.
 */
module TreadmillRun {
  import opened TreadmillArcs

  type Cell = int

  /** Where the mutator is: in the program; in the first loop of `treadmill_flip`; past that loop
      but with the arcs not yet exchanged; with the arcs exchanged; inside
      `treadmill_mark_roots`, holding the mutex; or in the signalling loop that ends the flip. */
  datatype MutatorPc = Running | AwaitScan | Flipping | Flipped | Marking(todo: seq<Cell>) | Waking

  /** A pointer store and its barrier are two steps.  Most stores shade first (`Shaded`, the
      write is still to come); `cons` as a procedure writes first (`Written`).  Allocation reads
      the link of the first free cell (`Taking`) and then makes it `treadmill_free`. */
  datatype Pending =
    | Nothing
    | Shaded(x: Cell, j: nat, p: Cell)
    | Written(x: Cell, j: nat, p: Cell)
    | Taking(link: Cell)

  /** Where the scanner is.  In `InCell` it has read the pointers `snap` of the scanned cell and
      has dealt with the first `done` of them. */
  datatype ScannerPc =
    | Boot
    | Reset
    | Outer
    | Inner
    | InCell(snap: seq<Cell>, done: nat)
    | Yield(inner: bool)
    | Leaving
    | Finished
    | Waiting
    | Woken

  datatype State = State(
    arcs: Arcs<Cell>,
    heap: map<Cell, seq<Cell>>,
    nil: Cell,
    regs: seq<Cell>,
    pending: Pending,
    mutator: MutatorPc,
    scanner: ScannerPc,
    dark: bool,
    scanDark: bool,
    flipActive: bool,
    finished: bool)
  {
    /** What `treadmill_mark_roots` marks: the empty list and all that the mutator holds. */
    function Roots(): seq<Cell> {
      [nil] + regs
    }

    predicate RootsDark() {
      forall r | r in Roots() :: arcs.Dark(r)
    }

    /** Past the first loop of `treadmill_flip`, with `treadmill_flip_active` not yet cleared. */
    predicate InFlip() {
      mutator.Flipping? || mutator.Flipped? || mutator.Marking?
    }

    predicate ScannerHoldsMutex() {
      scanner.Reset? || scanner.Outer? || scanner.Inner? || scanner.InCell?
    }

    function Scanned(): Cell
      requires arcs.grey != []
    {
      arcs.grey[|arcs.grey| - 1]
    }

    predicate CanShade(p: Cell) {
      p in arcs.ecru ==> |arcs.ecru| >= 2
    }

    predicate CanBarrier(p: Cell) {
      CanShade(p) && (p in arcs.ecru ==> !ScannerHoldsMutex())
    }

    predicate HasSlot(x: Cell, j: nat) {
      x in heap && j < |heap[x]|
    }
  }

  datatype Step =
    // the mutator
    | Load(x: Cell, j: nat)
    | Keep(kept: seq<Cell>)
    | ReadLink
    | TakeFree(n: nat)
    | ShadeStore(x: Cell, j: nat, p: Cell)
    | WriteShaded
    | WriteStore(x: Cell, j: nat, p: Cell)
    | ShadeWritten
    | BeginFlip
    | SeeFinished
    | Toggle(added: seq<Cell>)
    | StartMark
    | MarkRoot
    | EndMark
    | Signal
    | Resume
    // the scanner
    | Lock
    | ClearFinished
    | OuterCheck
    | InnerCheck
    | ReadChild
    | ShadeChild
    | AdvanceScan(pause: bool)
    | Relock
    | SetFinished
    | Wait
    | RelockWoken

  predicate Idle(s: State) {
    s.mutator.Running? && s.pending.Nothing?
  }

  /** The clockwise link of `treadmill_free`. */
  function Link(a: Arcs<Cell>): Cell
    requires a.Ring() != []
  {
    a.Ring()[if |a.Ring()| == 1 then 0 else 1]
  }

  predicate Enabled(s: State, step: Step) {
    match step
    case Load(x, j) => Idle(s) && x in s.Roots() && s.HasSlot(x, j)
    case Keep(kept) => Idle(s) && forall r | r in kept :: r in s.Roots()
    case ReadLink => Idle(s) && s.arcs.white != []
    case TakeFree(_) =>
      s.mutator.Running? && s.pending.Taking? && s.arcs.white != [] && s.pending.link == Link(s.arcs)
    case ShadeStore(x, j, p) =>
      Idle(s) && x in s.Roots() && p in s.Roots() && s.HasSlot(x, j) && s.CanBarrier(p)
    case WriteShaded => s.mutator.Running? && s.pending.Shaded? && s.HasSlot(s.pending.x, s.pending.j)
    case WriteStore(x, j, p) => Idle(s) && x in s.Roots() && p in s.Roots() && s.HasSlot(x, j)
    case ShadeWritten => s.mutator.Running? && s.pending.Written? && s.CanBarrier(s.pending.p)
    case BeginFlip => Idle(s) && s.arcs.white == []
    case SeeFinished => s.mutator.AwaitScan? && s.finished
    case Toggle(added) =>
      && s.mutator.Flipping?
      && (forall i, j | 0 <= i < j < |added| :: added[i] != added[j])
      && (forall c | c in added :: c !in s.heap)
    case StartMark => s.mutator.Flipped? && !s.ScannerHoldsMutex()
    case MarkRoot => s.mutator.Marking? && s.mutator.todo != [] && s.CanShade(s.mutator.todo[0])
    case EndMark => s.mutator.Marking? && s.mutator.todo == []
    case Signal => s.mutator.Waking? && s.finished
    case Resume => s.mutator.Waking? && !s.finished
    case Lock => s.scanner.Boot? && !s.mutator.Marking?
    case ClearFinished => s.scanner.Reset?
    case OuterCheck => s.scanner.Outer?
    case InnerCheck => s.scanner.Inner?
    case ReadChild =>
      && s.scanner.InCell? && s.arcs.grey != []
      && s.HasSlot(s.Scanned(), |s.scanner.snap|)
    case ShadeChild =>
      s.scanner.InCell? && s.scanner.done < |s.scanner.snap| && s.CanShade(s.scanner.snap[s.scanner.done])
    case AdvanceScan(_) =>
      && s.scanner.InCell? && s.arcs.grey != []
      && s.Scanned() in s.heap && s.scanner.done == |s.heap[s.Scanned()]|
    case Relock => s.scanner.Yield? && !s.mutator.Marking?
    case SetFinished => s.scanner.Leaving?
    case Wait => s.scanner.Finished?
    case RelockWoken => s.scanner.Woken? && !s.mutator.Marking?
  }

  function Write(s: State, x: Cell, j: nat, p: Cell): map<Cell, seq<Cell>>
    requires s.HasSlot(x, j)
  {
    s.heap[x := s.heap[x][j := p]]
  }

  function Apply(s: State, step: Step): State
    requires Enabled(s, step)
  {
    match step
    case Load(x, j) => s.(regs := s.regs + [s.heap[x][j]])
    case Keep(kept) => s.(regs := kept)
    case ReadLink => s.(pending := Taking(Link(s.arcs)))
    case TakeFree(n) =>
      var x := s.arcs.white[0];
      s.(arcs := Allocate(s.arcs), heap := s.heap[x := seq(n, i => s.nil)], regs := s.regs + [x], pending := Nothing)
    case ShadeStore(x, j, p) => s.(arcs := Shade(s.arcs, p), pending := Shaded(x, j, p))
    case WriteShaded =>
      s.(heap := Write(s, s.pending.x, s.pending.j, s.pending.p), pending := Nothing)
    case WriteStore(x, j, p) => s.(heap := Write(s, x, j, p), pending := Written(x, j, p))
    case ShadeWritten => s.(arcs := Shade(s.arcs, s.pending.p), pending := Nothing)
    case BeginFlip => s.(mutator := AwaitScan, flipActive := true)
    case SeeFinished => s.(mutator := Flipping)
    case Toggle(added) =>
      s.(arcs := Grow(Flip(s.arcs), added),
         heap := s.heap + (map c | c in added :: []),
         dark := !s.dark,
         mutator := Flipped)
    case StartMark => s.(mutator := Marking(s.Roots()))
    case MarkRoot =>
      s.(arcs := Shade(s.arcs, s.mutator.todo[0]), mutator := Marking(s.mutator.todo[1..]))
    case EndMark => s.(mutator := Waking, flipActive := false)
    case Signal => s.(scanner := if s.scanner.Waiting? then Woken else s.scanner)
    case Resume => s.(mutator := Running)
    case Lock => s.(scanner := Reset)
    case ClearFinished => s.(scanner := Outer, finished := false)
    case OuterCheck =>
      if s.flipActive && s.arcs.grey == [] then s.(scanner := Leaving)
      else s.(scanner := Inner, scanDark := s.dark)
    case InnerCheck => s.(scanner := if s.arcs.grey == [] then Yield(false) else InCell([], 0))
    case ReadChild =>
      s.(scanner := s.scanner.(snap := s.scanner.snap + [s.heap[s.Scanned()][|s.scanner.snap|]]))
    case ShadeChild =>
      s.(arcs := Shade(s.arcs, s.scanner.snap[s.scanner.done]),
         scanner := s.scanner.(done := s.scanner.done + 1))
    case AdvanceScan(pause) =>
      s.(arcs := Advance(s.arcs), scanner := if pause then Yield(true) else Inner)
    case Relock => s.(scanner := if s.scanner.inner then Inner else Outer)
    case SetFinished => s.(scanner := Finished, finished := true)
    case Wait => s.(scanner := Waiting)
    case RelockWoken => s.(scanner := Reset)
  }

  // ---------------------------------------------------------------------------
  // The invariant, in four parts
  // ---------------------------------------------------------------------------

  /** Every cell is on the ring once, and some cell is ecru. */
  ghost predicate Structure(s: State) {
    && s.arcs.Distinct()
    && s.arcs.ecru != []
    && (forall c :: c in s.heap <==> c in s.arcs.white || s.arcs.Live(c))
  }

  /** The two threads agree on who may touch the treadmill. */
  predicate Protocol(s: State) {
    && (s.flipActive <==> s.mutator.AwaitScan? || s.InFlip())
    && (!s.mutator.Running? ==> s.pending.Nothing?)
    && (s.scanner.Finished? || s.scanner.Waiting? || s.scanner.Woken? ==> s.finished)
    && (s.finished ==> s.scanner.Finished? || s.scanner.Waiting? || s.scanner.Woken? || s.scanner.Reset?)
    && (s.scanner.Leaving? ==> s.mutator.AwaitScan? && s.arcs.grey == [])
    && (s.mutator.Running? ==> !s.finished)
    && (s.mutator.AwaitScan? || s.mutator.Flipping? ==> s.arcs.white == [])
    && (s.mutator.AwaitScan? && s.finished ==>
        (s.scanner.Finished? || s.scanner.Waiting?) && s.arcs.grey == [])
    && (s.InFlip() ==> s.finished && (s.scanner.Finished? || s.scanner.Waiting?))
    && (s.mutator.Flipping? || s.mutator.Flipped? ==> s.arcs.grey == [])
    && (s.mutator.Flipped? || s.mutator.Marking? || (s.mutator.Waking? && s.finished) ==> s.arcs.black == [])
    && (s.mutator.Flipped? || s.mutator.Marking? || s.mutator.Waking? ==> s.arcs.white != [])
    && (s.scanner.Inner? || s.scanner.InCell? || s.scanner == Yield(true) ==> s.scanDark == s.dark)
  }

  /** What the threads hold is not free; the empty list is dark whenever the program runs. */
  predicate Holdings(s: State) {
    && (forall r | r in s.Roots() :: s.arcs.Live(r))
    && (s.mutator.Flipped? || s.mutator.Marking? || s.arcs.Dark(s.nil))
    && (s.mutator.Marking? ==>
        && (forall r | r in s.mutator.todo :: s.arcs.Live(r))
        && (forall r | r in s.Roots() :: s.arcs.Dark(r) || r in s.mutator.todo))
    && (s.pending.Shaded? ==>
        && s.arcs.Live(s.pending.x) && s.arcs.Dark(s.pending.p) && s.HasSlot(s.pending.x, s.pending.j))
    && (s.pending.Written? ==>
        && s.arcs.Live(s.pending.x) && s.arcs.Live(s.pending.p)
        && s.HasSlot(s.pending.x, s.pending.j) && s.heap[s.pending.x][s.pending.j] == s.pending.p)
  }

  predicate Excused(s: State, c: Cell, j: nat) {
    s.pending.Written? && s.pending.x == c && s.pending.j == j
  }

  /** No live cell points to a free one, and no black cell to an ecru one, but for the slot
      whose barrier is still to come. */
  ghost predicate Tricolour(s: State) {
    && (forall c, j | c in s.heap && s.arcs.Live(c) && 0 <= j < |s.heap[c]| :: s.arcs.Live(s.heap[c][j]))
    && (forall c, j | c in s.heap && c in s.arcs.black && 0 <= j < |s.heap[c]| ::
          s.arcs.Dark(s.heap[c][j]) || Excused(s, c, j))
  }

  /** What is settled about the cell being scanned. */
  predicate Scanning(s: State) {
    s.scanner.InCell? ==>
      && s.arcs.grey != []
      && s.Scanned() in s.heap
      && s.scanner.done <= |s.scanner.snap| <= |s.heap[s.Scanned()]|
      && (forall c | c in s.scanner.snap :: s.arcs.Live(c))
      && (forall j | 0 <= j < |s.scanner.snap| ::
            || s.arcs.Dark(s.heap[s.Scanned()][j])
            || Excused(s, s.Scanned(), j)
            || (j >= s.scanner.done && s.heap[s.Scanned()][j] == s.scanner.snap[j]))
  }

  ghost predicate Inv(s: State) {
    Structure(s) && Protocol(s) && Holdings(s) && Tricolour(s) && Scanning(s)
  }

  /** The hypothesis on registers, as a condition on one step. */
  predicate Disciplined(s: State, step: Step) {
    step.Toggle? ==> s.RootsDark()
  }

  // ---------------------------------------------------------------------------
  // Every step keeps the invariant
  // ---------------------------------------------------------------------------

  /** Shading a live cell anywhere in the code keeps what is known of the arcs. */
  lemma ShadeKeeps(s: State, p: Cell, t: State)
    requires Structure(s) && s.CanShade(p)
    requires t.arcs == Shade(s.arcs, p) && t.heap == s.heap
    ensures Structure(t)
    ensures forall c :: t.arcs.Live(c) <==> s.arcs.Live(c)
    ensures forall c :: s.arcs.Dark(c) ==> t.arcs.Dark(c)
    ensures s.arcs.Live(p) ==> t.arcs.Dark(p)
    ensures t.arcs.black == s.arcs.black && t.arcs.white == s.arcs.white
    ensures s.arcs.grey != [] ==> t.arcs.grey != [] && t.Scanned() == s.Scanned()
  {
    ShadeConserves(s.arcs, p);
    SameCells(s.arcs, t.arcs);
  }

  /** Steps that move only program counters and flags leave the cells and holdings as they were. */
  lemma CellsKept(s: State, t: State)
    requires Structure(s) && Tricolour(s)
    requires t.arcs == s.arcs && t.heap == s.heap
    requires t.pending == s.pending || (s.pending.Nothing? && t.pending.Taking?)
    ensures Structure(t) && Tricolour(t)
  {
  }

  lemma RegistersKeep(s: State, step: Step)
    requires Inv(s) && Enabled(s, step)
    requires step.Load? || step.Keep? || step.ReadLink?
    ensures Inv(Apply(s, step))
  {
    CellsKept(s, Apply(s, step));
  }

  lemma MutatorKeeps(s: State, step: Step)
    requires Inv(s) && Enabled(s, step)
    requires step.BeginFlip? || step.EndMark? || step.Signal? || step.Resume?
          || step.SeeFinished? || step.StartMark?
    ensures Inv(Apply(s, step))
  {
    var t := Apply(s, step);
    CellsKept(s, t);
    assert s.nil in s.Roots();
    assert t.regs == s.regs && t.nil == s.nil;
  }

  lemma WritingKeeps(s: State, step: Step)
    requires Inv(s) && Enabled(s, step)
    requires step.WriteShaded? || step.WriteStore?
    ensures Inv(Apply(s, step))
  {
  }

  lemma ShadedCellsKept(s: State, p: Cell, t: State)
    requires Structure(s) && Tricolour(s) && s.CanShade(p)
    requires t.arcs == Shade(s.arcs, p) && t.heap == s.heap
    requires t.pending == s.pending || (s.pending.Nothing? && t.pending.Shaded?)
          || (t.pending.Nothing? && s.pending.Written? && s.pending.p == p
              && s.HasSlot(s.pending.x, s.pending.j) && s.heap[s.pending.x][s.pending.j] == p && s.arcs.Live(p))
    ensures Structure(t) && Tricolour(t)
  {
    ShadeKeeps(s, p, t);
    forall c, j | c in t.heap && t.arcs.Live(c) && 0 <= j < |t.heap[c]|
      ensures t.arcs.Live(t.heap[c][j])
      ensures c in t.arcs.black ==> t.arcs.Dark(t.heap[c][j]) || Excused(t, c, j)
    {
      assert s.arcs.Live(s.heap[c][j]);
    }
  }

  lemma BarrierKeeps(s: State, step: Step)
    requires Inv(s) && Enabled(s, step)
    requires step.ShadeStore? || step.ShadeWritten?
    ensures Inv(Apply(s, step))
  {
    var p := if step.ShadeStore? then step.p else s.pending.p;
    ShadeKeeps(s, p, Apply(s, step));
    ShadedCellsKept(s, p, Apply(s, step));
  }

  lemma MarkingKeeps(s: State, step: Step)
    requires Inv(s) && Enabled(s, step) && step.MarkRoot?
    ensures Inv(Apply(s, step))
  {
    ShadeKeeps(s, s.mutator.todo[0], Apply(s, step));
    ShadedCellsKept(s, s.mutator.todo[0], Apply(s, step));
  }

  lemma ScanShadingKeeps(s: State, step: Step)
    requires Inv(s) && Enabled(s, step) && step.ShadeChild?
    ensures Inv(Apply(s, step))
  {
    var p := s.scanner.snap[s.scanner.done];
    ShadeKeeps(s, p, Apply(s, step));
    ShadedCellsKept(s, p, Apply(s, step));
  }

  lemma AllocKeeps(s: State, step: Step)
    requires Inv(s) && Enabled(s, step) && step.TakeFree?
    ensures Inv(Apply(s, step))
  {
    var t := Apply(s, step);
    AllocateConserves(s.arcs);
    SameCells(s.arcs, t.arcs);
    Apart(s.arcs, s.arcs.white[0]);
    if s.arcs.grey != [] {
      assert s.Scanned() in s.arcs.grey && t.Scanned() == s.Scanned() != s.arcs.white[0];
    }
  }

  predicate MovesScanner(step: Step) {
    step.Lock? || step.ClearFinished? || step.OuterCheck? || step.InnerCheck?
    || step.Relock? || step.SetFinished? || step.Wait? || step.RelockWoken?
  }

  lemma ScannerProtocol(s: State, step: Step)
    requires Protocol(s) && Enabled(s, step) && MovesScanner(step)
    ensures Protocol(Apply(s, step))
    ensures Apply(s, step) == s.(scanner := Apply(s, step).scanner, finished := Apply(s, step).finished,
                                 scanDark := Apply(s, step).scanDark)
    ensures Apply(s, step).scanner.InCell? ==> Apply(s, step).scanner == InCell([], 0) && s.arcs.grey != []
  {
  }

  lemma ScannerKeeps(s: State, step: Step)
    requires Inv(s) && Enabled(s, step) && MovesScanner(step)
    ensures Inv(Apply(s, step))
  {
    var t := Apply(s, step);
    ScannerProtocol(s, step);
    CellsKept(s, t);
    if t.scanner.InCell? {
      assert t.Scanned() in t.arcs.grey;
    }
  }

  lemma ReadingKeeps(s: State, step: Step)
    requires Inv(s) && Enabled(s, step) && step.ReadChild?
    ensures Inv(Apply(s, step))
  {
    assert s.Scanned() in s.arcs.grey;
  }

  lemma AdvanceKeeps(s: State, step: Step)
    requires Inv(s) && Enabled(s, step) && step.AdvanceScan?
    ensures Inv(Apply(s, step))
  {
    var t := Apply(s, step);
    AdvanceConserves(s.arcs);
    SameCells(s.arcs, t.arcs);
  }

  lemma DistinctCounts(added: seq<Cell>, c: Cell)
    requires forall i, j | 0 <= i < j < |added| :: added[i] != added[j]
    ensures multiset(added)[c] <= 1
  {
    if added != [] {
      var n := |added| - 1;
      assert added == added[..n] + [added[n]];
      DistinctCounts(added[..n], c);
    }
  }

  /** The exchange of arcs, with growth, leaves every cell on the ring once. */
  lemma ToggleStructure(s: State, step: Step)
    requires Structure(s) && Enabled(s, step) && step.Toggle?
    requires s.arcs.white == [] && s.arcs.grey == [] && s.arcs.black != []
    ensures Structure(Apply(s, step))
    ensures Apply(s, step).arcs == Arcs(s.arcs.ecru + step.added, s.arcs.black, [], [])
  {
    var t := Apply(s, step);
    var a := s.arcs;
    FlipConserves(a);
    GrowConserves(Flip(a), step.added);
    assert t.arcs == Arcs(a.ecru + step.added, a.black, [], []);
    forall c | c in t.arcs.Ring()
      ensures t.arcs.Count(c) <= 1
    {
      DistinctCounts(step.added, c);
      assert t.arcs.Count(c) == a.Count(c) + multiset(step.added)[c];
      assert c in step.added ==> c !in a.Ring();
    }
  }

  lemma ToggleKeeps(s: State, step: Step)
    requires Inv(s) && Enabled(s, step) && step.Toggle? && s.RootsDark()
    ensures Inv(Apply(s, step))
  {
    var t := Apply(s, step);
    assert s.nil in s.Roots();
    ToggleStructure(s, step);
    assert Protocol(t) && Holdings(t);
    forall c | c in s.arcs.black
      ensures c !in step.added && c in s.heap && t.heap[c] == s.heap[c]
    {
      assert s.arcs.Live(c);
    }
  }

  predicate TouchesHeap(step: Step) {
    step.TakeFree? || step.ShadeStore? || step.WriteShaded? || step.WriteStore? || step.ShadeWritten?
  }

  lemma HeapKeeps(s: State, step: Step)
    requires Inv(s) && Enabled(s, step) && TouchesHeap(step)
    ensures Inv(Apply(s, step))
  {
    if step.TakeFree? {
      AllocKeeps(s, step);
    } else if step.ShadeStore? || step.ShadeWritten? {
      BarrierKeeps(s, step);
    } else {
      WritingKeeps(s, step);
    }
  }

  /** Any step of a disciplined run keeps the invariant. */
  lemma StepKeeps(s: State, step: Step)
    requires Inv(s) && Enabled(s, step) && Disciplined(s, step)
    ensures Inv(Apply(s, step))
  {
    if TouchesHeap(step) {
      HeapKeeps(s, step);
    } else if step.Load? || step.Keep? || step.ReadLink? {
      RegistersKeep(s, step);
    } else if step.Toggle? {
      ToggleKeeps(s, step);
    } else if step.MarkRoot? {
      MarkingKeeps(s, step);
    } else {
      OthersKeep(s, step);
    }
  }

  lemma OthersKeep(s: State, step: Step)
    requires Inv(s) && Enabled(s, step) && !TouchesHeap(step)
    requires !step.Load? && !step.Keep? && !step.ReadLink? && !step.Toggle? && !step.MarkRoot?
    ensures Inv(Apply(s, step))
  {
    if step.ReadChild? {
      ReadingKeeps(s, step);
    } else if step.ShadeChild? {
      ScanShadingKeeps(s, step);
    } else if step.AdvanceScan? {
      AdvanceKeeps(s, step);
    } else {
      FlagsKeep(s, step);
    }
  }

  lemma FlagsKeep(s: State, step: Step)
    requires Inv(s) && Enabled(s, step)
    requires !step.Load? && !step.Keep? && !step.ReadLink? && !step.TakeFree? && !step.ShadeStore? && !step.WriteShaded?
    requires !step.WriteStore? && !step.ShadeWritten? && !step.Toggle? && !step.MarkRoot?
    requires !step.ReadChild? && !step.ShadeChild? && !step.AdvanceScan?
    ensures Inv(Apply(s, step))
  {
    if step.BeginFlip? || step.EndMark? || step.Signal? || step.Resume? || step.SeeFinished? || step.StartMark? {
      MutatorKeeps(s, step);
    } else {
      ScannerKeeps(s, step);
    }
  }
}
