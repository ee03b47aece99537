/** The barrier between the audio callback and its worker threads (`src/AudioDevice.cpp`).

  Any number of workers render into one buffer, in which each has two halves of its own, and the
  callback sums what they rendered.  A step is one access to what the threads share, or one sample.
 */
module AudioBarrier {

  /** `workers` threads, `samples` samples a round; `render(w, r, i)` is sample `i` of worker `w` in
      its round `r`, rounds being counted from 1. */
  datatype Setup = Setup(workers: nat, samples: nat, zeroLatency: bool, render: (nat, nat, nat) -> int)

  datatype WorkerPc = Choose | Spin | Render(i: nat) | Finish

  /** `half` is the half of its buffer that the worker writes to. */
  datatype Worker = Worker(pc: WorkerPc, count: nat, toggle: bool, half: bool)

  datatype CallbackPc = Idle | Signal | AwaitDone | Clear | Flip | Sum(i: nat)

  /** `output` is what the callback has mixed in this call, `heard` in those before: for every
      sample the values of all workers. */
  datatype State = State(
    workers: seq<Worker>,
    signals: nat,
    done: nat,
    pc: CallbackPc,
    toggle: bool,
    calls: nat,
    buffer: seq<int>,
    output: seq<seq<int>>,
    heard: seq<seq<seq<int>>>)

  /** Where a sample lies: worker `w` has two halves, one after the other. */
  function Slot(c: Setup, w: nat, half: bool, i: nat): nat {
    (2 * w + if half then 1 else 0) * c.samples + i
  }

  lemma SlotInside(c: Setup, w: nat, half: bool, i: nat)
    requires w < c.workers && i < c.samples
    ensures Slot(c, w, half, i) < 2 * c.workers * c.samples
  {
    var h := 2 * w + if half then 1 else 0;
    assert (h + 1) * c.samples <= 2 * c.workers * c.samples by {
      assert h + 1 <= 2 * c.workers;
      MultiplyOrder(h + 1, 2 * c.workers, c.samples);
    }
    assert (h + 1) * c.samples == h * c.samples + c.samples;
  }

  lemma MultiplyOrder(a: nat, b: nat, m: nat)
    requires a <= b
    ensures a * m <= b * m
  {
  }

  lemma LowerSlot(a: nat, b: nat, m: nat, i: nat, j: nat)
    requires a < b && i < m
    ensures a * m + i < b * m + j
  {
    MultiplyOrder(a + 1, b, m);
    assert (a + 1) * m == a * m + m;
  }

  /** No two samples lie in one place. */
  lemma SlotsDiffer(c: Setup, w1: nat, h1: bool, i1: nat, w2: nat, h2: bool, i2: nat)
    requires i1 < c.samples && i2 < c.samples && (w1 != w2 || h1 != h2 || i1 != i2)
    ensures Slot(c, w1, h1, i1) != Slot(c, w2, h2, i2)
  {
    var a, b := 2 * w1 + if h1 then 1 else 0, 2 * w2 + if h2 then 1 else 0;
    if a < b {
      LowerSlot(a, b, c.samples, i1, i2);
    } else if b < a {
      LowerSlot(b, a, c.samples, i2, i1);
    }
  }

  // ---------------------------------------------------------------------------
  // Steps
  // ---------------------------------------------------------------------------

  datatype Step = WorkerStep(w: nat) | CallbackStep

  predicate Enabled(c: Setup, s: State, a: Step) {
    match a
    case WorkerStep(w) => w < |s.workers| && (s.workers[w].pc == Spin ==> s.signals > s.workers[w].count)
    case CallbackStep => s.pc == AwaitDone ==> s.done == c.workers
  }

  function ApplyWorker(c: Setup, s: State, w: nat): State
    requires w < |s.workers|
  {
    var t := s.workers[w];
    match t.pc
    case Choose =>
      s.(workers := s.workers[w := t.(pc := Spin, half := t.toggle,
                                      toggle := if c.zeroLatency then t.toggle else !t.toggle)])
    case Spin => s.(workers := s.workers[w := t.(pc := Render(0), count := t.count + 1)])
    case Render(i) =>
      if i >= c.samples then s.(workers := s.workers[w := t.(pc := Finish)])
      else
        var at := Slot(c, w, t.half, i);
        s.(workers := s.workers[w := t.(pc := Render(i + 1))],
           buffer := if at < |s.buffer| then s.buffer[at := c.render(w, t.count, i)] else s.buffer)
    case Finish => s.(workers := s.workers[w := t.(pc := Choose)], done := s.done + 1)
  }

  /** The half that the callback sums: the second one if there is latency and its toggle is off. */
  predicate Half(c: Setup, s: State) {
    !c.zeroLatency && !s.toggle
  }

  /** The values of sample `i` of all workers. */
  function Column(c: Setup, s: State, i: nat): seq<int> {
    seq(c.workers, w requires 0 <= w =>
      if Slot(c, w, Half(c, s), i) < |s.buffer| then s.buffer[Slot(c, w, Half(c, s), i)] else 0)
  }

  function ApplyCallback(c: Setup, s: State): State {
    match s.pc
    case Idle => s.(done := 0, calls := s.calls + 1, output := [], pc := if c.zeroLatency then Signal else Flip)
    case Signal => s.(signals := s.signals + 1, pc := AwaitDone)
    case AwaitDone => s.(pc := Clear)
    case Clear => if c.zeroLatency then s.(done := 0, pc := Flip) else Return(s.(done := 0))
    case Flip => s.(toggle := !s.toggle, pc := Sum(0))
    case Sum(i) =>
      if i < c.samples then s.(output := s.output + [Column(c, s, i)], pc := Sum(i + 1))
      else if c.zeroLatency then Return(s)
      else s.(pc := Signal)
  }

  function Return(s: State): State {
    s.(pc := Idle, heard := s.heard + [s.output])
  }

  function Apply(c: Setup, s: State, a: Step): State
    requires Enabled(c, s, a)
  {
    match a
    case WorkerStep(w) => ApplyWorker(c, s, w)
    case CallbackStep => ApplyCallback(c, s)
  }

  /** `initMTAudio`: cleared buffers and workers about to begin. */
  function Start(c: Setup): State {
    State(seq(c.workers, w => Worker(Choose, 0, false, false)), 0, 0, Idle, true, 0,
          seq(2 * c.workers * c.samples, i => 0), [], [])
  }

  // ---------------------------------------------------------------------------
  // The invariant
  // ---------------------------------------------------------------------------

  /** What worker `w` renders in round `r`; before the first round there is silence. */
  function Sample(c: Setup, w: nat, r: int, i: nat): int {
    if r <= 0 then 0 else c.render(w, r, i)
  }

  /** The half for round `r`. */
  predicate HalfOf(c: Setup, r: int) {
    !c.zeroLatency && r % 2 == 0
  }

  predicate Holds(c: Setup, s: State, w: nat, half: bool, i: nat, v: int) {
    Slot(c, w, half, i) < |s.buffer| && s.buffer[Slot(c, w, half, i)] == v
  }

  /** The first `n` samples of round `r` are in their place. */
  predicate HasRound(c: Setup, s: State, w: nat, r: int, n: nat) {
    forall i | 0 <= i < n && i < c.samples :: Holds(c, s, w, HalfOf(c, r), i, Sample(c, w, r, i))
  }

  predicate Parked(t: Worker) {
    t.pc == Choose || t.pc == Spin
  }

  /** The worker's own view: which half is next, and what is in its buffer. */
  predicate WorkerOk(c: Setup, s: State, w: nat)
    requires w < |s.workers|
  {
    var t := s.workers[w];
    && (t.pc == Choose ==> t.toggle == HalfOf(c, t.count + 1))
    && (t.pc == Spin ==> t.half == HalfOf(c, t.count + 1) && t.toggle == HalfOf(c, t.count + 2))
    && (!Parked(t) ==> t.count > 0 && t.half == HalfOf(c, t.count) && t.toggle == HalfOf(c, t.count + 1))
    && HasRound(c, s, w, t.count, if t.pc.Render? then t.pc.i else c.samples)
    && (!c.zeroLatency ==> HasRound(c, s, w, t.count - 1, c.samples))
  }

  /** Between a signal and the end of the wait for it a worker may be a round behind, or at work. */
  predicate Open(s: State) {
    s.pc == AwaitDone
  }

  predicate CountOk(s: State, t: Worker) {
    if Open(s) then t.count == s.signals || (t.count + 1 == s.signals && Parked(t))
    else t.count == s.signals && Parked(t)
  }

  predicate IsDone(s: State, t: Worker) {
    t.count == s.signals && Parked(t)
  }

  function DoneCount(s: State, n: nat): (d: nat)
    requires n <= |s.workers|
    ensures d <= n
  {
    if n == 0 then 0 else DoneCount(s, n - 1) + if IsDone(s, s.workers[n - 1]) then 1 else 0
  }

  /** The round that call `k` sums. */
  function RoundOf(c: Setup, k: nat): int {
    if c.zeroLatency then k else k - 1
  }

  function Mixed(c: Setup, k: nat, i: nat): seq<int> {
    seq(c.workers, w requires 0 <= w => Sample(c, w, RoundOf(c, k), i))
  }

  /** The calls that have been counted and the signals that have been given. */
  predicate CallsOk(c: Setup, s: State) {
    && s.toggle == (if s.pc == Signal || s.pc == AwaitDone || s.pc == Clear || s.pc == Flip
                    then (if c.zeroLatency || s.pc == Flip then s.calls % 2 == 1 else s.calls % 2 == 0)
                    else s.calls % 2 == 0)
    && |s.heard| == (if s.pc == Idle then s.calls else s.calls - 1)
    && (s.pc != Idle ==> s.calls > 0)
    && s.signals == match s.pc
                    case Idle => s.calls
                    case Signal => s.calls - 1
                    case AwaitDone => s.calls
                    case Clear => s.calls
                    case Flip => if c.zeroLatency then s.calls else s.calls - 1
                    case Sum(_) => if c.zeroLatency then s.calls else s.calls - 1
  }

  predicate OutputOk(c: Setup, s: State) {
    && |s.output| <= c.samples
    && (s.pc.Sum? ==> |s.output| == s.pc.i)
    && (s.pc == Flip ==> s.output == [])
    && (s.pc == Signal || s.pc == AwaitDone || s.pc == Clear ==>
          |s.output| == if c.zeroLatency then 0 else c.samples)
    && (s.pc != Idle ==> forall i | 0 <= i < |s.output| :: s.output[i] == Mixed(c, s.calls, i))
    && forall k | 0 <= k < |s.heard| :: HeardOk(c, s.heard[k], k + 1)
  }

  /** What call `k` put out: for every sample the values that all workers gave it in one round. */
  predicate HeardOk(c: Setup, out: seq<seq<int>>, k: nat) {
    |out| == c.samples && forall i | 0 <= i < |out| :: out[i] == Mixed(c, k, i)
  }

  predicate Inv(c: Setup, s: State) {
    && |s.workers| == c.workers && |s.buffer| == 2 * c.workers * c.samples
    && (forall w | 0 <= w < |s.workers| :: WorkerOk(c, s, w) && CountOk(s, s.workers[w]))
    && s.done == (if Open(s) || s.pc == Clear then DoneCount(s, |s.workers|) else 0)
    && (s.pc == Clear ==> s.done == c.workers)
    && CallsOk(c, s) && OutputOk(c, s)
  }

  // ---------------------------------------------------------------------------
  // Every step keeps it
  // ---------------------------------------------------------------------------

  lemma StartOk(c: Setup)
    ensures Inv(c, Start(c))
  {
    var s := Start(c);
    forall w | 0 <= w < c.workers ensures WorkerOk(c, s, w) && CountOk(s, s.workers[w]) {
      forall i | 0 <= i < c.samples
        ensures Holds(c, s, w, HalfOf(c, 0), i, 0) && Holds(c, s, w, HalfOf(c, -1), i, 0)
      {
        SlotInside(c, w, HalfOf(c, 0), i);
        SlotInside(c, w, HalfOf(c, -1), i);
      }
    }
  }

  /** A worker's step leaves the samples of other workers, and of its own other half, as they were. */
  lemma RoundKept(c: Setup, s: State, s1: State, at: nat, w: nat, half: bool, i: nat, v: nat, r: int, n: nat)
    requires |s1.buffer| == |s.buffer| && HasRound(c, s, v, r, n) && i < c.samples
    requires forall k | 0 <= k < |s.buffer| && k != at :: s1.buffer[k] == s.buffer[k]
    requires at == Slot(c, w, half, i) && (v != w || HalfOf(c, r) != half || n <= i)
    ensures HasRound(c, s1, v, r, n)
  {
    forall k | 0 <= k < n && k < c.samples ensures Holds(c, s1, v, HalfOf(c, r), k, Sample(c, v, r, k)) {
      assert Holds(c, s, v, HalfOf(c, r), k, Sample(c, v, r, k));
      SlotsDiffer(c, w, half, i, v, HalfOf(c, r), k);
    }
  }

  lemma {:induction false} DoneCountStep(s: State, s1: State, w: nat, n: nat)
    requires n <= |s.workers| == |s1.workers| && w < |s.workers| && s1.signals == s.signals
    requires s1.workers == s.workers[w := s1.workers[w]]
    ensures DoneCount(s1, n) == DoneCount(s, n) + (if w < n && IsDone(s1, s1.workers[w]) then 1 else 0)
                                                - if w < n && IsDone(s, s.workers[w]) then 1 else 0
    decreases n
  {
    if n > 0 {
      DoneCountStep(s, s1, w, n - 1);
    }
  }

  /** Only the worker's own registers change, and the done count if it finishes. */
  predicate Quiet(c: Setup, s: State, s1: State, w: nat) {
    && w < |s.workers| == |s1.workers|
    && s1 == s.(workers := s.workers[w := s1.workers[w]], done := s1.done)
    && s1.done == s.done + if s.workers[w].pc.Finish? then 1 else 0
  }

  lemma OwnStep(c: Setup, s: State, w: nat)
    requires Inv(c, s) && Enabled(c, s, WorkerStep(w))
    requires s.workers[w].pc.Render? ==> s.workers[w].pc.i >= c.samples
    ensures var s1 := ApplyWorker(c, s, w);
            && Quiet(c, s, s1, w) && WorkerOk(c, s1, w) && CountOk(s1, s1.workers[w])
            && (IsDone(s1, s1.workers[w]) <==> IsDone(s, s.workers[w]) || s.workers[w].pc.Finish?)
            && (s.workers[w].pc.Finish? ==> Open(s) && !IsDone(s, s.workers[w]))
  {
    assert CountOk(s, s.workers[w]) && WorkerOk(c, s, w);
    RoundSame(c, s, ApplyWorker(c, s, w), w);
  }

  lemma QuietStep(c: Setup, s: State, w: nat)
    requires Inv(c, s) && Enabled(c, s, WorkerStep(w))
    requires s.workers[w].pc.Render? ==> s.workers[w].pc.i >= c.samples
    ensures Inv(c, ApplyWorker(c, s, w))
  {
    var s1 := ApplyWorker(c, s, w);
    OwnStep(c, s, w);
    DoneCountStep(s, s1, w, |s.workers|);
    forall v | 0 <= v < |s.workers| ensures WorkerOk(c, s1, v) && CountOk(s1, s1.workers[v]) {
      if v != w {
        assert WorkerOk(c, s, v) && CountOk(s, s.workers[v]);
        RoundSame(c, s, s1, v);
      }
    }
    SharedOk(c, s, s1, w);
  }

  lemma SharedOk(c: Setup, s: State, s1: State, w: nat)
    requires Quiet(c, s, s1, w) && CallsOk(c, s) && OutputOk(c, s)
    ensures CallsOk(c, s1) && OutputOk(c, s1)
  {
  }

  lemma RoundSame(c: Setup, s: State, s1: State, v: nat)
    requires s1.buffer == s.buffer
    ensures forall r: int, n: nat :: HasRound(c, s, v, r, n) ==> HasRound(c, s1, v, r, n)
  {
    forall r: int, n: nat | HasRound(c, s, v, r, n) ensures HasRound(c, s1, v, r, n) {
      forall i | 0 <= i < n && i < c.samples ensures Holds(c, s1, v, HalfOf(c, r), i, Sample(c, v, r, i)) {
        assert Holds(c, s, v, HalfOf(c, r), i, Sample(c, v, r, i));
      }
    }
  }

  /** A sample is written. */
  lemma RenderStep(c: Setup, s: State, w: nat)
    requires Inv(c, s) && w < |s.workers| && s.workers[w].pc.Render? && s.workers[w].pc.i < c.samples
    ensures Inv(c, ApplyWorker(c, s, w))
  {
    var s1 := ApplyWorker(c, s, w);
    var t := s.workers[w];
    OwnRender(c, s, w);
    DoneCountStep(s, s1, w, |s.workers|);
    forall v | 0 <= v < |s.workers| ensures WorkerOk(c, s1, v) && CountOk(s1, s1.workers[v]) {
      if v != w {
        OtherRender(c, s, w, v);
      }
    }
    assert OutputOk(c, s1) && CallsOk(c, s1);
  }

  lemma OwnRender(c: Setup, s: State, w: nat)
    requires Inv(c, s) && w < |s.workers| && s.workers[w].pc.Render? && s.workers[w].pc.i < c.samples
    ensures WorkerOk(c, ApplyWorker(c, s, w), w)
    ensures CountOk(ApplyWorker(c, s, w), ApplyWorker(c, s, w).workers[w])
    ensures !IsDone(s, s.workers[w]) && !IsDone(ApplyWorker(c, s, w), ApplyWorker(c, s, w).workers[w])
  {
    var s1 := ApplyWorker(c, s, w);
    var t, i := s.workers[w], s.workers[w].pc.i;
    assert CountOk(s, t) && WorkerOk(c, s, w);
    SlotInside(c, w, t.half, i);
    var at := Slot(c, w, t.half, i);
    RoundKept(c, s, s1, at, w, t.half, i, w, t.count, i);
    if !c.zeroLatency {
      RoundKept(c, s, s1, at, w, t.half, i, w, t.count - 1, c.samples);
    }
    forall k | 0 <= k < i + 1 && k < c.samples
      ensures Holds(c, s1, w, HalfOf(c, t.count), k, Sample(c, w, t.count, k))
    {
      if k < i {
        assert HasRound(c, s1, w, t.count, i);
        assert Holds(c, s1, w, HalfOf(c, t.count), k, Sample(c, w, t.count, k));
      }
    }
    assert HasRound(c, s1, w, t.count, i + 1);
  }

  lemma OtherRender(c: Setup, s: State, w: nat, v: nat)
    requires Inv(c, s) && w < |s.workers| && s.workers[w].pc.Render? && s.workers[w].pc.i < c.samples
    requires v < |s.workers| && v != w
    ensures WorkerOk(c, ApplyWorker(c, s, w), v) && CountOk(ApplyWorker(c, s, w), s.workers[v])
  {
    var s1 := ApplyWorker(c, s, w);
    var t, u := s.workers[w], s.workers[v];
    assert WorkerOk(c, s, v) && CountOk(s, u);
    var at := Slot(c, w, t.half, t.pc.i);
    RoundKept(c, s, s1, at, w, t.half, t.pc.i, v, u.count, if u.pc.Render? then u.pc.i else c.samples);
    if !c.zeroLatency {
      RoundKept(c, s, s1, at, w, t.half, t.pc.i, v, u.count - 1, c.samples);
    }
  }

  // ---------------------------------------------------------------------------
  // The callback
  // ---------------------------------------------------------------------------

  lemma {:induction false} NoneDone(s: State, n: nat)
    requires n <= |s.workers| && forall w | 0 <= w < |s.workers| :: s.workers[w].count != s.signals
    ensures DoneCount(s, n) == 0
    decreases n
  {
    if n > 0 {
      NoneDone(s, n - 1);
    }
  }

  lemma {:induction false} AllDone(s: State, n: nat, w: nat)
    requires w < n <= |s.workers| && DoneCount(s, n) == n
    ensures IsDone(s, s.workers[w])
    decreases n
  {
    if w < n - 1 {
      AllDone(s, n - 1, w);
    }
  }

  lemma {:induction false} DoneCountSame(s: State, s1: State, n: nat)
    requires n <= |s.workers| && s1.workers == s.workers && s1.signals == s.signals
    ensures DoneCount(s1, n) == DoneCount(s, n)
    decreases n
  {
    if n > 0 {
      DoneCountSame(s, s1, n - 1);
    }
  }

  lemma CallbackWorkers(c: Setup, s: State)
    requires Inv(c, s) && Enabled(c, s, CallbackStep)
    ensures var s1 := ApplyCallback(c, s);
            && (forall w | 0 <= w < |s.workers| :: WorkerOk(c, s1, w) && CountOk(s1, s.workers[w]))
            && s1.done == (if Open(s1) || s1.pc == Clear then DoneCount(s1, |s.workers|) else 0)
  {
    var s1 := ApplyCallback(c, s);
    forall w | 0 <= w < |s.workers| ensures WorkerOk(c, s1, w) && CountOk(s1, s.workers[w]) {
      assert WorkerOk(c, s, w) && CountOk(s, s.workers[w]);
      RoundSame(c, s, s1, w);
      if s.pc == AwaitDone {
        AllDone(s, |s.workers|, w);
      }
    }
    if s.pc == Signal {
      NoneDone(s1, |s.workers|);
    } else if s.pc == AwaitDone {
      DoneCountSame(s, s1, |s.workers|);
    }
  }

  /** While the callback sums, the half it sums holds the round that it is to sum. */
  lemma ColumnIsMixed(c: Setup, s: State, i: nat)
    requires Inv(c, s) && s.pc.Sum? && i < c.samples
    ensures Column(c, s, i) == Mixed(c, s.calls, i)
  {
    forall w | 0 <= w < c.workers ensures Column(c, s, i)[w] == Mixed(c, s.calls, i)[w] {
      assert WorkerOk(c, s, w) && CountOk(s, s.workers[w]);
      var r := RoundOf(c, s.calls);
      assert s.workers[w].count == r && HasRound(c, s, w, r, c.samples);
      assert Holds(c, s, w, HalfOf(c, r), i, Sample(c, w, r, i));
      assert Half(c, s) == HalfOf(c, r);
    }
  }

  lemma CallbackKeeps(c: Setup, s: State)
    requires Inv(c, s) && Enabled(c, s, CallbackStep)
    ensures Inv(c, ApplyCallback(c, s))
  {
    CallbackWorkers(c, s);
    if s.pc.Sum? && s.pc.i < c.samples {
      ColumnIsMixed(c, s, s.pc.i);
    }
    var s1 := ApplyCallback(c, s);
    assert CallsOk(c, s1);
    CallbackOutput(c, s);
  }

  lemma CallbackOutput(c: Setup, s: State)
    requires CallsOk(c, s) && OutputOk(c, s)
    requires s.pc.Sum? && s.pc.i < c.samples ==> Column(c, s, s.pc.i) == Mixed(c, s.calls, s.pc.i)
    ensures OutputOk(c, ApplyCallback(c, s))
  {
    var s1 := ApplyCallback(c, s);
    forall k | 0 <= k < |s1.heard| ensures HeardOk(c, s1.heard[k], k + 1) {
      if k < |s.heard| {
        assert s1.heard[k] == s.heard[k];
      }
    }
  }

  lemma StepKeeps(c: Setup, s: State, a: Step)
    requires Inv(c, s) && Enabled(c, s, a)
    ensures Inv(c, Apply(c, s, a))
  {
    if a == CallbackStep {
      CallbackKeeps(c, s);
    } else if s.workers[a.w].pc.Render? && s.workers[a.w].pc.i < c.samples {
      RenderStep(c, s, a.w);
    } else {
      QuietStep(c, s, a.w);
    }
  }

  // ---------------------------------------------------------------------------
  // Runs
  // ---------------------------------------------------------------------------

  ghost predicate Run(c: Setup, states: seq<State>, steps: seq<Step>) {
    && |states| == |steps| + 1 && states[0] == Start(c)
    && forall i | 0 <= i < |steps| :: Enabled(c, states[i], steps[i]) && states[i + 1] == Apply(c, states[i], steps[i])
  }

  lemma {:induction false} RunKeeps(c: Setup, states: seq<State>, steps: seq<Step>, i: nat)
    requires Run(c, states, steps) && i < |states|
    ensures Inv(c, states[i])
    decreases i
  {
    if i == 0 {
      StartOk(c);
    } else {
      RunKeeps(c, states, steps, i - 1);
      StepKeeps(c, states[i - 1], steps[i - 1]);
    }
  }

  /** Whatever the interleaving, the done count does not exceed the number of workers, and every
      worker has begun as many rounds as there were signals, or one less. */
  lemma CountsStayClose(c: Setup, states: seq<State>, steps: seq<Step>, i: nat)
    requires Run(c, states, steps) && i < |states|
    ensures states[i].done <= c.workers
    ensures forall w | 0 <= w < |states[i].workers| ::
      states[i].workers[w].count <= states[i].signals <= states[i].workers[w].count + 1
  {
    RunKeeps(c, states, steps, i);
    forall w | 0 <= w < |states[i].workers|
      ensures states[i].workers[w].count <= states[i].signals <= states[i].workers[w].count + 1
    {
      assert CountOk(states[i], states[i].workers[w]);
    }
  }

  /** No worker is in a round while the callback sums, nor may one begin. */
  lemma NobodyWritesDuringSum(c: Setup, states: seq<State>, steps: seq<Step>, i: nat, w: nat)
    requires Run(c, states, steps) && i < |states| && states[i].pc.Sum? && w < |states[i].workers|
    ensures Parked(states[i].workers[w])
    ensures states[i].workers[w].pc == Spin ==> !Enabled(c, states[i], WorkerStep(w))
  {
    RunKeeps(c, states, steps, i);
    assert CountOk(states[i], states[i].workers[w]);
  }

  /** Call `k` has put out the data of round `k` of every worker without latency, and otherwise of
      round `k - 1`, which is silence for the first call. */
  lemma CallHearsOneRound(c: Setup, states: seq<State>, steps: seq<Step>, i: nat, k: nat)
    requires Run(c, states, steps) && i < |states| && 0 < k <= |states[i].heard|
    ensures var out := states[i].heard[k - 1];
            && |out| == c.samples
            && forall j, w | 0 <= j < c.samples && 0 <= w < c.workers ::
                 |out[j]| == c.workers
                 && out[j][w] == if c.zeroLatency then c.render(w, k, j) else if k == 1 then 0 else c.render(w, k - 1, j)
  {
    RunKeeps(c, states, steps, i);
    assert HeardOk(c, states[i].heard[k - 1], k - 1 + 1);
  }

  // ---------------------------------------------------------------------------
  // Progress
  // ---------------------------------------------------------------------------

  /** How many steps a worker has still to go in the round that has been signalled. */
  function ToGo(c: Setup, s: State, t: Worker): nat {
    match t.pc
    case Choose => if t.count < s.signals then c.samples + 5 else 1
    case Spin => if t.count < s.signals then c.samples + 4 else 0
    case Render(i) => if i >= c.samples then 3 else c.samples - i + 3
    case Finish => 2
  }

  function AllToGo(c: Setup, s: State, n: nat): nat
    requires n <= |s.workers|
  {
    if n == 0 then 0 else AllToGo(c, s, n - 1) + ToGo(c, s, s.workers[n - 1])
  }

  lemma {:induction false} LessToGo(c: Setup, s: State, s1: State, w: nat, n: nat)
    requires n <= |s.workers| == |s1.workers| && w < |s.workers| && s1.signals == s.signals
    requires s1.workers == s.workers[w := s1.workers[w]]
    ensures AllToGo(c, s1, n) == AllToGo(c, s, n) + (if w < n then ToGo(c, s1, s1.workers[w]) else 0)
                                                  - if w < n then ToGo(c, s, s.workers[w]) else 0
    decreases n
  {
    if n > 0 {
      LessToGo(c, s, s1, w, n - 1);
    }
  }

  /** Every step of a worker brings the round nearer to its end ... */
  lemma WorkersComeToAnEnd(c: Setup, s: State, w: nat)
    requires Inv(c, s) && Enabled(c, s, WorkerStep(w))
    ensures AllToGo(c, ApplyWorker(c, s, w), c.workers) < AllToGo(c, s, c.workers)
  {
    assert CountOk(s, s.workers[w]);
    LessToGo(c, s, ApplyWorker(c, s, w), w, c.workers);
  }

  /** ... and while the callback waits there is a worker that can take one: the barrier opens after a
      bounded number of steps, whichever worker comes first. */
  lemma SomebodyCanGo(c: Setup, s: State) returns (w: nat)
    requires Inv(c, s) && s.pc == AwaitDone && s.done != c.workers
    ensures Enabled(c, s, WorkerStep(w))
  {
    w := NotDone(s, |s.workers|);
    assert CountOk(s, s.workers[w]);
  }

  lemma {:induction false} NotDone(s: State, n: nat) returns (w: nat)
    requires n <= |s.workers| && DoneCount(s, n) != n
    ensures w < n && !IsDone(s, s.workers[w])
    decreases n
  {
    if n > 0 && IsDone(s, s.workers[n - 1]) {
      w := NotDone(s, n - 1);
    } else {
      w := n - 1;
    }
  }
}
