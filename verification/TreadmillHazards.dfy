/** Why the discipline on registers is there: a run of the collector without it. */
module TreadmillHazards {
  import opened TreadmillArcs
  import opened TreadmillRun
  import opened TreadmillHandshake
  import opened TreadmillSafety

  lemma {:induction false} PlayOn(s: State, first: seq<Step>, t: State, rest: seq<Step>)
    requires Play(s, first) == Some(t)
    ensures Play(s, first + rest) == Play(t, rest)
    decreases |first|
  {
    if first == [] {
      assert first + rest == rest;
    } else {
      PlayOn(Apply(s, first[0]), first[1..], t, rest);
      assert (first + rest)[1..] == first[1..] + rest;
    }
  }

  ghost predicate Reaches(s: State, t: State) {
    exists steps :: Play(s, steps) == Some(t)
  }

  lemma Via(s: State, t: State, u: State)
    requires Reaches(s, t) && Reaches(t, u)
    ensures Reaches(s, u)
  {
    var first :| Play(s, first) == Some(t);
    var rest :| Play(t, rest) == Some(u);
    PlayOn(s, first, t, rest);
  }

  lemma One(s: State, x: Step, t: State)
    requires Enabled(s, x) && Apply(s, x) == t
    ensures Reaches(s, t)
  {
    assert [x][1..] == [];
    assert Play(s, [x]) == Play(t, []);
  }

  lemma Two(s: State, x: Step, y: Step, t: State)
    requires Enabled(s, x) && Enabled(Apply(s, x), y) && Apply(Apply(s, x), y) == t
    ensures Reaches(s, t)
  {
    One(s, x, Apply(s, x));
    One(Apply(s, x), y, t);
    Via(s, Apply(s, x), t);
  }

  /** The mutator finds no free cell; the scanner, with nothing to scan, parks. */
  lemma Park(s: State, t: State)
    requires Idle(s) && s.arcs.white == [] && s.arcs.grey == [] && s.scanner == Outer
    requires t == s.(mutator := Flipping, scanner := Finished, flipActive := true, finished := true)
    ensures Reaches(s, t)
  {
    var m := s.(mutator := AwaitScan, scanner := Leaving, flipActive := true);
    Two(s, BeginFlip, OuterCheck, m);
    Two(m, SetFinished, SeeFinished, t);
    Via(s, m, t);
  }

  lemma Exchange(s: State, t: State)
    requires s.mutator == Flipping && s.scanner == Finished
    requires t == s.(arcs := Flip(s.arcs), dark := !s.dark, mutator := Marking(s.Roots()))
    ensures Reaches(s, t)
  {
    assert Flip(s.arcs).white + [] == Flip(s.arcs).white;
    assert s.heap + (map c: Cell | c in [] :: []) == s.heap;
    Two(s, Toggle([]), StartMark, t);
  }

  lemma WakeUp(s: State, t: State)
    requires s.mutator == Marking([]) && s.scanner == Finished && s.finished
    requires t == s.(mutator := Running, scanner := Outer, flipActive := false, finished := false)
    ensures Reaches(s, t)
  {
    var m := s.(mutator := Waking, scanner := Waiting, flipActive := false);
    Two(s, Wait, EndMark, m);
    WakeUpEnd(m, t);
    Via(s, m, t);
  }

  lemma WakeUpEnd(m: State, t: State)
    requires m.mutator == Waking && m.scanner == Waiting && m.finished
    requires t == m.(mutator := Running, scanner := Outer, finished := false)
    ensures Reaches(m, t)
  {
    var u := m.(scanner := Reset);
    Two(m, Signal, RelockWoken, u);
    Two(u, ClearFinished, Resume, t);
    Via(m, u, t);
  }

  // Cell 0 is the empty list; register 1 is a pair whose first pointer is 2; 4 is garbage.

  const HEAP: map<Cell, seq<Cell>> := map[0 := [], 1 := [2], 2 := [], 3 := [], 4 := []]
  const CUT_HEAP: map<Cell, seq<Cell>> := map[0 := [], 1 := [0], 2 := [], 3 := [], 4 := []]

  const FIRST: State :=
    State(Arcs([], [3], [], [0, 1, 2, 4]), HEAP, 0, [1], Nothing, Running, Boot, true, true, false, false)

  const AFTER_FLIP: State :=
    State(Arcs([3], [2, 4], [1, 0], []), HEAP, 0, [1], Nothing, Running, Outer, false, true, false, false)

  const AFTER_LOAD: State := AFTER_FLIP.(heap := CUT_HEAP, regs := [2])

  const AFTER_SCAN: State :=
    AFTER_LOAD.(arcs := Arcs([3], [2, 4], [], [1, 0]), scanDark := false)

  const USED: State :=
    AFTER_SCAN.(arcs := Arcs([], [2, 4], [], [1, 0, 3]), regs := [2, 3], heap := CUT_HEAP[3 := []])

  /** A first flip, of which the pair and the empty list come out grey. */
  lemma FirstFlip(s: State)
    requires s == FIRST
    ensures Reaches(s, AFTER_FLIP)
  {
    var s1 := s.(scanner := Outer);
    Two(s, Lock, ClearFinished, s1);
    var s2 := s1.(mutator := Flipping, scanner := Finished, flipActive := true, finished := true);
    Park(s1, s2);
    Via(s, s1, s2);
    FirstMark(s2);
    Via(s, s2, AFTER_FLIP);
  }

  lemma FirstMark(s: State)
    requires s == FIRST.(mutator := Flipping, scanner := Finished, flipActive := true, finished := true)
    ensures Reaches(s, AFTER_FLIP)
  {
    var s3 := s.(arcs := Arcs([3], [0, 1, 2, 4], [], []), dark := false, mutator := Marking([0, 1]));
    assert [0] + [1] == [0, 1];
    Exchange(s, s3);
    var s4 := s3.(arcs := Arcs([3], [2, 4], [1, 0], []), mutator := Marking([]));
    MarkBoth(s3, s4);
    WakeUp(s4, AFTER_FLIP);
    Via(s, s3, s4);
    Via(s, s4, AFTER_FLIP);
  }

  lemma MarkBoth(s: State, t: State)
    requires s.mutator == Marking([0, 1]) && s.arcs == Arcs([3], [0, 1, 2, 4], [], [])
    requires t == s.(arcs := Arcs([3], [2, 4], [1, 0], []), mutator := Marking([]))
    ensures Reaches(s, t)
  {
    var m := s.(arcs := Arcs([3], [1, 2, 4], [0], []), mutator := Marking([1]));
    assert Without([0, 1, 2, 4], 0) == [1, 2, 4] && [0, 1][1..] == [1];
    One(s, MarkRoot, m);
    assert Without([1, 2, 4], 1) == [2, 4] && [1] + [0] == [1, 0] && [1][1..] == [];
    One(m, MarkRoot, t);
    Via(s, m, t);
  }

  /** The mutator loads cell 2, which is ecru, overwrites the only pointer to it, with the
      barrier, and goes on with nothing but the register. */
  lemma LoadAndOverwrite(s: State, t: State)
    requires s == AFTER_FLIP && t == AFTER_LOAD
    ensures Reaches(s, t)
  {
    var m := s.(regs := [1, 2], pending := Shaded(1, 0, 0));
    LoadAndShade(s, m);
    var u := m.(heap := CUT_HEAP, pending := Nothing);
    assert [2][0 := 0] == [0];
    assert HEAP[1 := [0]] == CUT_HEAP;
    One(m, WriteShaded, u);
    assert u.Roots()[2] == 2;
    One(u, Keep([2]), t);
    Via(s, m, u);
    Via(s, u, t);
  }

  lemma LoadAndShade(s: State, t: State)
    requires s == AFTER_FLIP && t == s.(regs := [1, 2], pending := Shaded(1, 0, 0))
    ensures Reaches(s, t)
  {
    Two(s, Load(1, 0), ShadeStore(1, 0, 0), t);
  }

  lemma EnterScan(s: State, t: State)
    requires s.scanner == Outer && !s.flipActive && s.arcs.grey != []
    requires t == s.(scanDark := s.dark, scanner := InCell([], 0))
    ensures Reaches(s, t)
  {
    Two(s, OuterCheck, InnerCheck, t);
  }

  /** The scanner goes on to the next grey cell. */
  lemma NextGrey(s: State, t: State)
    requires s.scanner == InCell([], 0) && s.arcs.grey == [1, 0] && 0 in s.heap && s.heap[0] == []
    requires t == s.(arcs := s.arcs.(grey := [1], black := [0] + s.arcs.black))
    ensures Reaches(s, t)
  {
    assert [1, 0][..1] == [1];
    Two(s, AdvanceScan(false), InnerCheck, t);
  }

  /** The scanner finds two cells to scan and no pointer to cell 2. */
  lemma ScanNil(s: State, t: State)
    requires s == AFTER_LOAD
    requires t == s.(arcs := Arcs([3], [2, 4], [1], [0]), scanDark := false, scanner := InCell([], 0))
    ensures Reaches(s, t)
  {
    var m := s.(scanDark := false, scanner := InCell([], 0));
    EnterScan(s, m);
    assert [0] + [] == [0];
    NextGrey(m, t);
    Via(s, m, t);
  }

  lemma ScanPair(s: State, t: State)
    requires s == AFTER_LOAD.(arcs := Arcs([3], [2, 4], [1], [0]), scanDark := false, scanner := InCell([], 0))
    requires t == AFTER_SCAN
    ensures Reaches(s, t)
  {
    var m := s.(scanner := InCell([0], 1));
    ScanPointer(s, m);
    PairDone(m, t);
    Via(s, m, t);
  }

  /** With its only pointer dealt with, the last grey cell turns black and the scanner pauses. */
  lemma PairDone(s: State, t: State)
    requires s.scanner == InCell([0], 1) && s.arcs == Arcs([3], [2, 4], [1], [0]) && s.heap == CUT_HEAP
    requires t == s.(arcs := Arcs([3], [2, 4], [], [1, 0]), scanner := Outer) && !s.mutator.Marking?
    ensures Reaches(s, t)
  {
    var u := t.(scanner := Yield(false));
    assert [1][..0] == [] && [1] + [0] == [1, 0];
    Two(s, AdvanceScan(false), InnerCheck, u);
    One(u, Relock, t);
    Via(s, u, t);
  }

  lemma ScanPointer(s: State, t: State)
    requires s.arcs == Arcs([3], [2, 4], [1], [0]) && s.heap == CUT_HEAP && s.scanner == InCell([], 0)
    requires t == s.(scanner := InCell([0], 1))
    ensures Reaches(s, t)
  {
    assert [] + [CUT_HEAP[1][0]] == [0];
    var r := s.(scanner := InCell([0], 0));
    One(s, ReadChild, r);
    One(r, ShadeChild, t);
    Via(s, r, t);
  }

  lemma SecondFlip(s: State) returns (t: State)
    requires s == AFTER_SCAN
    ensures Reaches(s, t) && t.arcs.white == [2, 4] && t.regs == [2, 3]
  {
    assert seq(0, i => s.nil) == [];
    assert [3][1..] == [] && [1, 0] + [3] == [1, 0, 3];
    assert s.arcs.Ring()[1] == 2;
    Two(s, ReadLink, TakeFree(0), USED);
    var parked := USED.(mutator := Flipping, scanner := Finished, flipActive := true, finished := true);
    Park(USED, parked);
    t := parked.(arcs := Flip(USED.arcs), dark := !parked.dark, mutator := Marking(parked.Roots()));
    Exchange(parked, t);
    Via(s, USED, parked);
    Via(s, parked, t);
  }

  /** The barrier on stores alone does not keep registers dark: this run shades every pointer it
      stores, and yet its second flip reclaims a cell that a register holds.  So the discipline
      on registers in `NothingReachableIsFree` is a condition on the code around the collector. */
  lemma LoadedRegisterReclaimed() returns (s: State, t: State)
    ensures Start(s) && Reaches(s, t)
    ensures exists r | r in t.Roots() :: r in t.arcs.white
  {
    s := FIRST;
    FirstStarts(s);
    ToSecondFlip(s);
    t := SecondFlip(AFTER_SCAN);
    Via(s, AFTER_SCAN, t);
    assert t.Roots()[1] == 2;
    assert 2 in t.Roots();
  }

  lemma FirstStarts(s: State)
    requires s == FIRST
    ensures Start(s)
  {
    FirstStructure(s);
    assert s.Roots() == [0, 1];
  }

  lemma FirstStructure(s: State)
    requires s == FIRST
    ensures Structure(s)
  {
    assert s.arcs.Ring() == [3, 0, 1, 2, 4];
    assert s.heap.Keys == {0, 1, 2, 3, 4};
  }

  lemma ToSecondFlip(s: State)
    requires s == FIRST
    ensures Reaches(s, AFTER_SCAN)
  {
    var mid := AFTER_LOAD.(arcs := Arcs([3], [2, 4], [1], [0]), scanDark := false, scanner := InCell([], 0));
    FirstFlip(s);
    LoadAndOverwrite(AFTER_FLIP, AFTER_LOAD);
    Via(s, AFTER_FLIP, AFTER_LOAD);
    ScanNil(AFTER_LOAD, mid);
    Via(s, AFTER_LOAD, mid);
    ScanPair(mid, AFTER_SCAN);
    Via(s, mid, AFTER_SCAN);
  }

  // ---------------------------------------------------------------------------
  // A stale link
  // ---------------------------------------------------------------------------

  const LINKED: State := AFTER_FLIP.(pending := Taking(2))

  const IN_PAIR: State :=
    LINKED.(arcs := Arcs([3], [2, 4], [1], [0]), scanDark := false, scanner := InCell([2], 0))

  const STALE: State :=
    IN_PAIR.(arcs := Arcs([3], [4], [2, 1], [0]), scanner := InCell([2], 1))

  /** While the mutator is between reading the link of the last free cell and using it, the scanner
      comes to the pair, whose pointer is the cell that the link names. */
  lemma ScanToPair(s: State)
    requires s == LINKED
    ensures Reaches(s, IN_PAIR)
  {
    var m := s.(scanDark := false, scanner := InCell([], 0));
    EnterScan(s, m);
    assert [0] + [] == [0];
    var u := m.(arcs := Arcs([3], [2, 4], [1], [0]));
    NextGrey(m, u);
    assert [] + [HEAP[1][0]] == [2];
    One(u, ReadChild, IN_PAIR);
    Via(s, m, u);
    Via(s, u, IN_PAIR);
  }

  lemma ShadeLinked(s: State)
    requires s == IN_PAIR
    ensures Reaches(s, STALE)
  {
    assert Without([2, 4], 2) == [4] && [2] + [1] == [2, 1];
    One(s, ShadeChild, STALE);
  }

  /** The hypothesis on links is needed too: in this run nothing but an allocation and the scanner is at
      work, all registers are dark, and the link that is about to become `treadmill_free` names a
      grey cell that a register reaches.  The next allocation would hand it out. */
  lemma StaleLinkHandsOutGrey() returns (s: State, t: State)
    ensures Start(s) && Reaches(s, t) && t.RootsDark()
    ensures t.pending.Taking? && t.pending.link in t.arcs.grey && Reachable(t, t.pending.link)
  {
    s, t := FIRST, STALE;
    FirstStarts(s);
    FirstFlip(s);
    assert AFTER_FLIP.arcs.Ring()[1] == 2;
    One(AFTER_FLIP, ReadLink, LINKED);
    Via(s, AFTER_FLIP, LINKED);
    ScanToPair(LINKED);
    Via(s, LINKED, IN_PAIR);
    ShadeLinked(IN_PAIR);
    Via(s, IN_PAIR, t);
    StaleReachable(t);
  }

  lemma StaleReachable(t: State)
    requires t == STALE
    ensures t.RootsDark() && Reachable(t, 2)
  {
    assert t.Roots() == [0, 1];
    assert t.heap[1][0] == 2;
    assert IsPath(t, [1, 2]) && [1, 2][|[1, 2]| - 1] == 2;
  }
}
