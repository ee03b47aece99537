/** Runs of a machine with a dump, and how they are put together.  The step function is a
    parameter here; `SchemeCorrectness` puts in the one of the register machine. */
module MachineRuns {
  import opened Registers

  type Stepper<!S> = Machine<S> -> Eval<Status<S>>

  /** The machine after `k` steps; once it has stopped or failed it stays so. */
  function After<S>(f: Stepper<S>, m: Machine<S>, k: nat): Eval<Status<S>>
    decreases k
  {
    if k == 0 then Got(Next(m))
    else
      match f(m)
      case Got(Next(m1)) => After(f, m1, k - 1)
      case r => r
  }

  predicate Going<S>(f: Stepper<S>, m: Machine<S>, k: nat) {
    After(f, m, k).Got? && After(f, m, k).value.Next?
  }

  function At<S>(f: Stepper<S>, m: Machine<S>, k: nat): Machine<S>
    requires Going(f, m, k)
  {
    After(f, m, k).value.m
  }

  predicate Above<S>(m: Machine<S>, d: seq<Frame>, h: nat) {
    d <= m.dump && |m.dump| <= |d| + h
  }

  /** For `k` steps the machine works above the dump `d`, which it leaves untouched; it takes
      `h` frames above `d` at most, and that many after `p` steps. */
  predicate Segment<S>(f: Stepper<S>, m: Machine<S>, k: nat, p: nat, d: seq<Frame>, h: nat) {
    && p < k
    && (forall j | 0 <= j < k :: Going(f, m, j) && Above(At(f, m, j), d, h))
    && |At(f, m, p).dump| == |d| + h
  }

  /** For `k` steps the machine goes on, above the dump `d`. */
  predicate Over<S>(f: Stepper<S>, m: Machine<S>, k: nat, d: seq<Frame>) {
    forall j | 0 <= j < k :: Going(f, m, j) && d <= At(f, m, j).dump
  }

  /** The run of `m` says what the evaluator says: the value is returned to the dump the run began
      with; an error stops the machine before that; and where the evaluator is short of fuel, the
      machine is still going, above that dump, after as many steps. */
  predicate Agrees<S(==)>(f: Stepper<S>, fuel: nat, r: Eval<Out<S>>, m: Machine<S>, k: nat, p: nat) {
    match r
    case Got(o) => Segment(f, m, k, p, m.dump, o.frames) && After(f, m, k) == Got(Ret(o.v, m.dump, o.s))
    case Fault => Over(f, m, k, m.dump) && After(f, m, k) == Fault
    case Timeout => Over(f, m, fuel + 1, m.dump)
  }

  lemma Unroll<S>(f: Stepper<S>, m: Machine<S>, k: nat)
    requires k > 0
    ensures f(m).Got? && f(m).value.Next? ==> After(f, m, k) == After(f, f(m).value.m, k - 1)
    ensures !(f(m).Got? && f(m).value.Next?) ==> After(f, m, k) == f(m)
  {
  }

  lemma {:induction false} Chain<S>(f: Stepper<S>, m: Machine<S>, a: nat, m1: Machine<S>, b: nat)
    requires After(f, m, a) == Got(Next(m1))
    ensures After(f, m, a + b) == After(f, m1, b)
    decreases a
  {
    if a > 0 {
      Chain(f, f(m).value.m, a - 1, m1, b);
    }
  }

  lemma OverJoin<S>(f: Stepper<S>, m: Machine<S>, k1: nat, d: seq<Frame>, m1: Machine<S>, k2: nat)
    requires Over(f, m, k1, d) && After(f, m, k1) == Got(Next(m1)) && Over(f, m1, k2, d)
    ensures Over(f, m, k1 + k2, d)
    ensures After(f, m, k1 + k2) == After(f, m1, k2)
  {
    Chain(f, m, k1, m1, k2);
    forall j | 0 <= j < k1 + k2
      ensures Going(f, m, j) && d <= At(f, m, j).dump
    {
      if j >= k1 {
        Chain(f, m, k1, m1, j - k1);
        assert Going(f, m1, j - k1) && d <= At(f, m1, j - k1).dump;
        assert After(f, m, k1 + (j - k1)) == After(f, m, j);
      }
    }
  }

  lemma SegmentOver<S>(f: Stepper<S>, m: Machine<S>, k: nat, p: nat, d: seq<Frame>, h: nat)
    requires Segment(f, m, k, p, d, h)
    ensures Over(f, m, k, d)
  {
  }

  /** What goes wrong, or goes on, after a segment does so in the whole run. */
  lemma Unfinished<S>(f: Stepper<S>, fuel: nat, m: Machine<S>, k1: nat, p1: nat, h: nat, m1: Machine<S>,
                      r: Eval<Out<S>>, k2: nat)
    requires fuel > 0 && Segment(f, m, k1, p1, m.dump, h) && After(f, m, k1) == Got(Next(m1)) && m.dump <= m1.dump
    requires !r.Got?
    requires if r.Fault? then Over(f, m1, k2, m1.dump) && After(f, m1, k2) == Fault else Over(f, m1, fuel, m1.dump)
    ensures if r.Fault? then Over(f, m, k1 + k2, m.dump) && After(f, m, k1 + k2) == Fault
            else Over(f, m, fuel + 1, m.dump)
  {
    SegmentOver(f, m, k1, p1, m.dump, h);
    OverJoin(f, m, k1, m.dump, m1, if r.Fault? then k2 else fuel);
  }

  /** Two segments above the same dump are one. */
  lemma Join<S>(f: Stepper<S>, m: Machine<S>, k1: nat, p1: nat, d: seq<Frame>, h1: nat,
             m1: Machine<S>, k2: nat, p2: nat, h2: nat)
    returns (p: nat)
    requires Segment(f, m, k1, p1, d, h1) && After(f, m, k1) == Got(Next(m1)) && Segment(f, m1, k2, p2, d, h2)
    ensures Segment(f, m, k1 + k2, p, d, Max(h1, h2))
    ensures After(f, m, k1 + k2) == After(f, m1, k2)
  {
    Chain(f, m, k1, m1, k2);
    Chain(f, m, k1, m1, p2);
    p := if h1 < h2 then k1 + p2 else p1;
    forall j | 0 <= j < k1 + k2
      ensures Going(f, m, j) && Above(At(f, m, j), d, Max(h1, h2))
    {
      if j >= k1 {
        Chain(f, m, k1, m1, j - k1);
        assert Going(f, m1, j - k1) && Above(At(f, m1, j - k1), d, h2);
        assert After(f, m, k1 + (j - k1)) == After(f, m, j);
      }
    }
  }

  lemma OneStep<S>(f: Stepper<S>, m: Machine<S>)
    requires f(m).Got?
    ensures Segment(f, m, 1, 0, m.dump, 0)
    ensures After(f, m, 1) == f(m)
  {
  }

  /** A segment above a dump with one more frame. */
  lemma Outward<S>(f: Stepper<S>, m: Machine<S>, k: nat, p: nat, d: seq<Frame>, fr: Frame, h: nat)
    requires Segment(f, m, k, p, d + [fr], h)
    ensures Segment(f, m, k, p, d, 1 + h)
  {
    forall j | 0 <= j < k
      ensures Going(f, m, j) && Above(At(f, m, j), d, 1 + h)
    {
      assert Above(At(f, m, j), d + [fr], h);
      assert d <= d + [fr];
    }
  }

  /** One more step after a segment. */
  lemma Extend<S>(f: Stepper<S>, m: Machine<S>, k: nat, p: nat, d: seq<Frame>, h: nat, m1: Machine<S>)
    returns (q: nat)
    requires Segment(f, m, k, p, d, h) && After(f, m, k) == Got(Next(m1)) && m1.dump == d
    ensures After(f, m, k + 1) == f(m1) && Over(f, m, k + 1, d)
    ensures f(m1).Got? ==> Segment(f, m, k + 1, q, d, h)
  {
    q := p;
    SegmentOver(f, m, k, p, d, h);
    OverJoin(f, m, k, d, m1, 1);
    if f(m1).Got? {
      OneStep(f, m1);
      q := Join(f, m, k, p, d, h, m1, 1, 0, 0);
    }
  }

  /** What is left to do after a segment decides what the whole run does. */
  lemma Continue<S>(f: Stepper<S>, fuel: nat, m: Machine<S>, k1: nat, p1: nat, h: nat,
                 m1: Machine<S>, r: Eval<Out<S>>, k2: nat, p2: nat)
    returns (k: nat, p: nat)
    requires fuel > 0 && Segment(f, m, k1, p1, m.dump, h) && After(f, m, k1) == Got(Next(m1)) && m1.dump == m.dump
    requires Agrees(f, fuel - 1, r, m1, k2, p2)
    ensures Agrees(f, fuel, WithFrames(r, h), m, k, p)
  {
    k, p := k1 + k2, 0;
    if r.Got? {
      p := Join(f, m, k1, p1, m.dump, h, m1, k2, p2, r.value.frames);
    } else {
      Unfinished(f, fuel, m, k1, p1, h, m1, r, k2);
    }
  }

  /** A result whose computation began with a part that took `h` frames. */
  function WithFrames<S>(r: Eval<Out<S>>, h: nat): Eval<Out<S>> {
    if r.Got? then Got(Out(r.value.v, r.value.s, Max(h, r.value.frames))) else r
  }

  /** The machine back in a saved frame, with the value it has been waiting for. */
  function Resume<S>(fr: Frame, o: Out<S>, d: seq<Frame>): Machine<S> {
    Machine(fr.op, fr.args, fr.envir, fr.code, o.v, d, o.s)
  }

  /** `r` is the result of a part for which `m` saves the frame `fr`. */
  predicate Part<S(==)>(f: Stepper<S>, fuel: nat, r: Eval<Out<S>>, fr: Frame, m: Machine<S>, k: nat, p: nat) {
    match r
    case Got(o) => Segment(f, m, k, p, m.dump, 1 + o.frames) && After(f, m, k) == Got(Next(Resume(fr, o, m.dump)))
    case Fault => Over(f, m, k, m.dump) && After(f, m, k) == Fault
    case Timeout => Over(f, m, fuel + 1, m.dump)
  }

  /** A step that saves a frame, and then the part. */
  lemma Push<S>(f: Stepper<S>, fuel: nat, m: Machine<S>, m1: Machine<S>, fr: Frame, r: Eval<Out<S>>, k1: nat, p1: nat)
    returns (k: nat, p: nat)
    requires fuel > 0 && f(m) == Got(Next(m1)) && m1.dump == m.dump + [fr]
    requires Agrees(f, fuel - 1, r, m1, k1, p1)
    ensures Part(f, fuel, r, fr, m, k, p)
  {
    OneStep(f, m);
    k, p := 1 + k1, 0;
    if r.Got? {
      Outward(f, m1, k1, p1, m.dump, fr, r.value.frames);
      p := Join(f, m, 1, 0, m.dump, 0, m1, k1, p1, 1 + r.value.frames);
      assert m1.dump[..|m1.dump| - 1] == m.dump;
    } else {
      Unfinished(f, fuel, m, 1, 0, 0, m1, r, k1);
    }
  }

  /** A step in tail position. */
  lemma Tail<S>(f: Stepper<S>, fuel: nat, m: Machine<S>, m1: Machine<S>, r: Eval<Out<S>>, k1: nat, p1: nat)
    returns (k: nat, p: nat)
    requires fuel > 0 && f(m) == Got(Next(m1)) && m1.dump == m.dump
    requires Agrees(f, fuel - 1, r, m1, k1, p1)
    ensures Agrees(f, fuel, r, m, k, p)
  {
    OneStep(f, m);
    k, p := Continue(f, fuel, m, 1, 0, 0, m1, r, k1, p1);
  }

  /** A step that returns. */
  lemma Return<S>(f: Stepper<S>, fuel: nat, m: Machine<S>, o: Out<S>)
    requires f(m) == Got(Ret(o.v, m.dump, o.s)) && o.frames == 0
    ensures Agrees(f, fuel, Got(o), m, 1, 0)
  {
    OneStep(f, m);
  }

  lemma Fail<S>(f: Stepper<S>, fuel: nat, m: Machine<S>)
    requires f(m) == Fault
    ensures Agrees(f, fuel, Fault, m, 1, 0)
  {
  }

  /** What follows a part is one step, which may fail or return ... */
  lemma PartThenStep<S>(f: Stepper<S>, fuel: nat, r: Eval<Out<S>>, fr: Frame, m: Machine<S>, k: nat, p: nat)
    returns (q: nat)
    requires r.Got? && Part(f, fuel, r, fr, m, k, p)
    ensures var m1 := Resume(fr, r.value, m.dump);
            && After(f, m, k + 1) == f(m1) && Over(f, m, k + 1, m.dump)
            && (f(m1).Got? ==> Segment(f, m, k + 1, q, m.dump, 1 + r.value.frames))
  {
    q := Extend(f, m, k, p, m.dump, 1 + r.value.frames, Resume(fr, r.value, m.dump));
  }

  lemma PartThenReturn<S>(f: Stepper<S>, fuel: nat, r: Eval<Out<S>>, fr: Frame, m: Machine<S>, k: nat, p: nat,
                          v: Value, s: S)
    returns (kk: nat, pp: nat)
    requires r.Got? && Part(f, fuel, r, fr, m, k, p)
    requires f(Resume(fr, r.value, m.dump)) == Got(Ret(v, m.dump, s))
    ensures Agrees(f, fuel, Got(Out(v, s, 1 + r.value.frames)), m, kk, pp)
  {
    pp := PartThenStep(f, fuel, r, fr, m, k, p);
    kk := k + 1;
  }

  lemma PartThenFault<S>(f: Stepper<S>, fuel: nat, r: Eval<Out<S>>, fr: Frame, m: Machine<S>, k: nat, p: nat)
    returns (kk: nat, pp: nat)
    requires r.Got? && Part(f, fuel, r, fr, m, k, p) && f(Resume(fr, r.value, m.dump)) == Fault
    ensures Agrees(f, fuel, Fault, m, kk, pp)
  {
    pp := PartThenStep(f, fuel, r, fr, m, k, p);
    kk := k + 1;
  }

  /** ... or a step that goes on in tail position ... */
  lemma PartThenTail<S>(f: Stepper<S>, fuel: nat, r: Eval<Out<S>>, fr: Frame, m: Machine<S>, k: nat, p: nat,
                     m2: Machine<S>, r2: Eval<Out<S>>, k2: nat, p2: nat)
    returns (kk: nat, pp: nat)
    requires fuel > 0 && r.Got? && Part(f, fuel, r, fr, m, k, p)
    requires f(Resume(fr, r.value, m.dump)) == Got(Next(m2)) && m2.dump == m.dump
    requires Agrees(f, fuel - 1, r2, m2, k2, p2)
    ensures Agrees(f, fuel, WithFrames(r2, 1 + r.value.frames), m, kk, pp)
  {
    var q := PartThenStep(f, fuel, r, fr, m, k, p);
    kk, pp := Continue(f, fuel, m, k + 1, q, 1 + r.value.frames, m2, r2, k2, p2);
  }

  /** ... or what the evaluator does next begins in the resumed frame itself. */
  lemma PartThen<S>(f: Stepper<S>, fuel: nat, r: Eval<Out<S>>, fr: Frame, m: Machine<S>, k: nat, p: nat,
                 r2: Eval<Out<S>>, k2: nat, p2: nat)
    returns (kk: nat, pp: nat)
    requires fuel > 0 && r.Got? && Part(f, fuel, r, fr, m, k, p)
    requires Agrees(f, fuel - 1, r2, Resume(fr, r.value, m.dump), k2, p2)
    ensures Agrees(f, fuel, WithFrames(r2, 1 + r.value.frames), m, kk, pp)
  {
    kk, pp := Continue(f, fuel, m, k, p, 1 + r.value.frames, Resume(fr, r.value, m.dump), r2, k2, p2);
  }

  /** A frame is saved, a part evaluated, and the frame's own step returns ... */
  lemma Wrapped<S>(f: Stepper<S>, fuel: nat, m: Machine<S>, m1: Machine<S>, fr: Frame, r: Eval<Out<S>>,
                   k1: nat, p1: nat, v: Value, s: S)
    returns (k: nat, p: nat)
    requires fuel > 0 && f(m) == Got(Next(m1)) && m1.dump == m.dump + [fr]
    requires Agrees(f, fuel - 1, r, m1, k1, p1)
    requires r.Got? ==> f(Resume(fr, r.value, m.dump)) == Got(Ret(v, m.dump, s))
    ensures Agrees(f, fuel, if r.Got? then Got(Out(v, s, 1 + r.value.frames)) else r, m, k, p)
  {
    k, p := Push(f, fuel, m, m1, fr, r, k1, p1);
    if r.Got? {
      k, p := PartThenReturn(f, fuel, r, fr, m, k, p, v, s);
    }
  }

  /** ... or goes on with what is described by `r2`. */
  lemma Sequel<S>(f: Stepper<S>, fuel: nat, m: Machine<S>, m1: Machine<S>, fr: Frame, r: Eval<Out<S>>,
                  k1: nat, p1: nat, r2: Eval<Out<S>>, k2: nat, p2: nat)
    returns (k: nat, p: nat)
    requires fuel > 0 && f(m) == Got(Next(m1)) && m1.dump == m.dump + [fr]
    requires Agrees(f, fuel - 1, r, m1, k1, p1)
    requires r.Got? ==> Agrees(f, fuel - 1, r2, Resume(fr, r.value, m.dump), k2, p2)
    ensures Agrees(f, fuel, if r.Got? then WithFrames(r2, 1 + r.value.frames) else r, m, k, p)
  {
    k, p := Push(f, fuel, m, m1, fr, r, k1, p1);
    if r.Got? {
      k, p := PartThen(f, fuel, r, fr, m, k, p, r2, k2, p2);
    }
  }

  /** `r` is the result of a list of parts, at whose end the machine is in state `m1`. */
  predicate Listed<S(==)>(f: Stepper<S>, fuel: nat, r: Eval<Out<S>>, m: Machine<S>, k: nat, p: nat, m1: Machine<S>) {
    match r
    case Got(o) => Segment(f, m, k, p, m.dump, o.frames) && After(f, m, k) == Got(Next(m1)) && m1.dump == m.dump
    case Fault => Over(f, m, k, m.dump) && After(f, m, k) == Fault
    case Timeout => Over(f, m, fuel + 1, m.dump)
  }

  lemma ListNext<S>(f: Stepper<S>, fuel: nat, r: Eval<Out<S>>, fr: Frame, m: Machine<S>, k: nat, p: nat,
                 rest: Eval<Out<S>>, k2: nat, p2: nat, m1: Machine<S>, v: Value)
    returns (kk: nat, pp: nat)
    requires fuel > 0 && r.Got? && Part(f, fuel, r, fr, m, k, p)
    requires Listed(f, fuel - 1, rest, Resume(fr, r.value, m.dump), k2, p2, m1)
    ensures var all := if rest.Got?
                       then Got(Out(v, rest.value.s, Max(1 + r.value.frames, rest.value.frames))) else rest;
            Listed(f, fuel, all, m, kk, pp, m1)
  {
    var mid := Resume(fr, r.value, m.dump);
    kk, pp := k + k2, 0;
    if rest.Got? {
      pp := Join(f, m, k, p, m.dump, 1 + r.value.frames, mid, k2, p2, rest.value.frames);
    } else {
      Unfinished(f, fuel, m, k, p, 1 + r.value.frames, mid, rest, k2);
    }
  }

  /** A segment, then a list, and then the rest of the form. */
  lemma ListIn<S>(f: Stepper<S>, fuel: nat, m: Machine<S>, k: nat, p: nat, h: nat, m1: Machine<S>,
               r: Eval<Out<S>>, k1: nat, p1: nat, m2: Machine<S>)
    returns (kk: nat, pp: nat)
    requires fuel > 0 && Segment(f, m, k, p, m.dump, h) && After(f, m, k) == Got(Next(m1)) && m1.dump == m.dump
    requires Listed(f, fuel - 1, r, m1, k1, p1, m2)
    ensures Listed(f, fuel, WithFrames(r, h), m, kk, pp, m2)
  {
    kk, pp := k + k1, 0;
    if r.Got? {
      pp := Join(f, m, k, p, m.dump, h, m1, k1, p1, r.value.frames);
    } else {
      Unfinished(f, fuel, m, k, p, h, m1, r, k1);
    }
  }

  /** A list, and then what decides the whole run. */
  predicate ListedThen<S(==)>(f: Stepper<S>, fuel: nat, vals: Eval<Out<S>>, m: Machine<S>, k: nat, p: nat,
                              m1: Machine<S>, r: Eval<Out<S>>, k1: nat, p1: nat) {
    && Listed(f, fuel, vals, m, k, p, m1)
    && if vals.Got? then Agrees(f, fuel, r, m1, k1, p1) else r == vals
  }

  /** A part, a step, a list, and then what decides the whole run. */
  lemma PartThenList<S>(f: Stepper<S>, fuel: nat, r0: Eval<Out<S>>, fr: Frame, m: Machine<S>, k: nat, p: nat,
                     m1: Machine<S>, vals: Eval<Out<S>>, k1: nat, p1: nat, m2: Machine<S>,
                     r: Eval<Out<S>>, k2: nat, p2: nat)
    returns (kk: nat, pp: nat)
    requires fuel > 0 && r0.Got? && Part(f, fuel, r0, fr, m, k, p)
    requires f(Resume(fr, r0.value, m.dump)) == Got(Next(m1)) && m1.dump == m.dump
    requires ListedThen(f, fuel - 1, vals, m1, k1, p1, m2, r, k2, p2)
    ensures var h := if vals.Got? then vals.value.frames else 0;
            Agrees(f, fuel, WithFrames(r, Max(1 + r0.value.frames, h)), m, kk, pp)
  {
    var q := PartThenStep(f, fuel, r0, fr, m, k, p);
    kk, pp := ListIn(f, fuel, m, k + 1, q, 1 + r0.value.frames, m1, vals, k1, p1, m2);
    if vals.Got? {
      kk, pp := Continue(f, fuel, m, kk, pp, Max(1 + r0.value.frames, vals.value.frames), m2, r, k2, p2);
    }
  }

  lemma StepThenList<S>(f: Stepper<S>, fuel: nat, m: Machine<S>, m1: Machine<S>, r: Eval<Out<S>>, k1: nat, p1: nat,
                     m2: Machine<S>)
    returns (k: nat, p: nat)
    requires fuel > 0 && f(m) == Got(Next(m1)) && m1.dump == m.dump && Listed(f, fuel - 1, r, m1, k1, p1, m2)
    ensures Listed(f, fuel, r, m, k, p, m2)
  {
    OneStep(f, m);
    k, p := ListIn(f, fuel, m, 1, 0, 0, m1, r, k1, p1, m2);
  }

  /** After a list: a step in tail position. */
  lemma ListThenTail<S>(f: Stepper<S>, fuel: nat, r: Eval<Out<S>>, m: Machine<S>, k: nat, p: nat, m1: Machine<S>,
                     m2: Machine<S>, r2: Eval<Out<S>>, k2: nat, p2: nat)
    returns (kk: nat, pp: nat)
    requires fuel > 0 && r.Got? && Listed(f, fuel, r, m, k, p, m1)
    requires f(m1) == Got(Next(m2)) && m2.dump == m.dump
    requires Agrees(f, fuel - 1, r2, m2, k2, p2)
    ensures Agrees(f, fuel, WithFrames(r2, r.value.frames), m, kk, pp)
  {
    var q := Extend(f, m, k, p, m.dump, r.value.frames, m1);
    kk, pp := Continue(f, fuel, m, k + 1, q, r.value.frames, m2, r2, k2, p2);
  }

  lemma ListThenFault<S>(f: Stepper<S>, fuel: nat, r: Eval<Out<S>>, m: Machine<S>, k: nat, p: nat, m1: Machine<S>)
    requires r.Got? && Listed(f, fuel, r, m, k, p, m1) && f(m1) == Fault
    ensures Agrees(f, fuel, Fault, m, k + 1, p)
  {
    SegmentOver(f, m, k, p, m.dump, r.value.frames);
    OverJoin(f, m, k, m.dump, m1, 1);
  }

  // ---------------------------------------------------------------------------
  // Passages from one state to another
  // ---------------------------------------------------------------------------

  /** After a step at least, the machine is in state `m1` with the dump of `m`, on top of which it
      has taken `h` frames at most. */
  ghost predicate Reaches<S>(f: Stepper<S>, m: Machine<S>, m1: Machine<S>, h: nat) {
    && m1.dump == m.dump
    && exists k: nat, p: nat, g: nat :: g <= h && Segment(f, m, k, p, m.dump, g) && After(f, m, k) == Got(Next(m1))
  }

  lemma Transitive<S>(f: Stepper<S>, m: Machine<S>, m1: Machine<S>, m2: Machine<S>, h: nat)
    requires Reaches(f, m, m1, h) && Reaches(f, m1, m2, h)
    ensures Reaches(f, m, m2, h)
  {
    var k, p, g := Passage(f, m, m1, h);
    var k1, p1, g1 := Passage(f, m1, m2, h);
    var q := Join(f, m, k, p, m.dump, g, m1, k1, p1, g1);
  }

  /** One step. */
  lemma ByStep<S>(f: Stepper<S>, m: Machine<S>, m1: Machine<S>, h: nat)
    requires f(m) == Got(Next(m1)) && m1.dump == m.dump
    ensures Reaches(f, m, m1, h)
  {
    OneStep(f, m);
  }

  lemma Passage<S>(f: Stepper<S>, m: Machine<S>, m1: Machine<S>, h: nat) returns (k: nat, p: nat, g: nat)
    requires Reaches(f, m, m1, h)
    ensures k > 0 && g <= h && Segment(f, m, k, p, m.dump, g) && After(f, m, k) == Got(Next(m1))
  {
    k, p, g :| g <= h && Segment(f, m, k, p, m.dump, g) && After(f, m, k) == Got(Next(m1));
  }

  /** A stretch of at least `n` steps that ends with the dump it began with. */
  predicate Stretch<S(==)>(f: Stepper<S>, m: Machine<S>, m1: Machine<S>, k: nat, p: nat, g: nat, h: nat, n: nat) {
    n <= k && g <= h && m1.dump == m.dump && Segment(f, m, k, p, m.dump, g) && After(f, m, k) == Got(Next(m1))
  }

  lemma Lengthen<S>(f: Stepper<S>, m: Machine<S>, m1: Machine<S>, k0: nat, p0: nat, g0: nat, m2: Machine<S>,
                 h: nat, n: nat)
    returns (k: nat, p: nat, g: nat)
    requires Stretch(f, m, m1, k0, p0, g0, h, n) && Reaches(f, m1, m2, h)
    ensures Stretch(f, m, m2, k, p, g, h, n + 1)
  {
    var k1, p1, g1 := Passage(f, m1, m2, h);
    p := Join(f, m, k0, p0, m.dump, g0, m1, k1, p1, g1);
    k, g := k0 + k1, Max(g0, g1);
  }

  /** From wherever `call` leads from and `starts` holds, the machine gets to where it leads. */
  ghost predicate Carries<C(!new), S(!new)>(f: Stepper<S>, call: (C, C) -> bool, starts: (Machine<S>, C) -> bool,
                                            h: nat)
  {
    forall c, c1, m :: call(c, c1) && starts(m, c) ==> Brings(f, starts, m, c1, h)
  }

  ghost predicate Brings<C, S(!new)>(f: Stepper<S>, starts: (Machine<S>, C) -> bool, m: Machine<S>, c1: C, h: nat) {
    exists m1 :: starts(m1, c1) && Reaches(f, m, m1, h)
  }

  ghost predicate InTurn<C>(call: (C, C) -> bool, c: seq<C>) {
    |c| >= 2 && forall i | 0 <= i < |c| - 1 :: call(c[i], c[i + 1])
  }

  /** One passage after the other is a passage, within the frames that single ones need. */
  lemma {:induction false} Chained<C(!new), S(!new)>(f: Stepper<S>, call: (C, C) -> bool,
                                                    starts: (Machine<S>, C) -> bool,
                                                    c: seq<C>, h: nat, m: Machine<S>)
    returns (m1: Machine<S>, k: nat, p: nat, g: nat)
    requires Carries(f, call, starts, h) && InTurn(call, c) && starts(m, c[0])
    ensures starts(m1, c[|c| - 1]) && Stretch(f, m, m1, k, p, g, h, |c| - 1)
    decreases |c|
  {
    var n := |c| - 1;
    assert call(c[n - 1], c[n - 1 + 1]);
    if n == 1 {
      assert Brings(f, starts, m, c[1], h);
      m1 :| starts(m1, c[1]) && Reaches(f, m, m1, h);
      k, p, g := Passage(f, m, m1, h);
    } else {
      var m0, k0, p0, g0 := Chained(f, call, starts, c[..n], h, m);
      assert Brings(f, starts, m0, c[n], h);
      m1 :| starts(m1, c[n]) && Reaches(f, m0, m1, h);
      k, p, g := Lengthen(f, m, m0, k0, p0, g0, m1, h, n - 1);
    }
  }
}
