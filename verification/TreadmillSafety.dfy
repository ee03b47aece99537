/** What the collector guarantees, over every run and every interleaving. */
module TreadmillSafety {
  import opened TreadmillArcs
  import opened TreadmillRun
  import opened TreadmillHandshake

  // ---------------------------------------------------------------------------
  // Disciplined runs
  // ---------------------------------------------------------------------------

  /** Every flip of the run starts with dark registers. */
  predicate DisciplinedRun(s: State, steps: seq<Step>)
    decreases |steps|
  {
    steps != [] && Enabled(s, steps[0]) ==>
      Disciplined(s, steps[0]) && DisciplinedRun(Apply(s, steps[0]), steps[1..])
  }

  lemma {:induction false} RunKeeps(s: State, steps: seq<Step>, t: State)
    requires Inv(s) && DisciplinedRun(s, steps) && Play(s, steps) == Some(t)
    ensures Inv(t)
    decreases |steps|
  {
    if steps != [] {
      StepKeeps(s, steps[0]);
      RunKeeps(Apply(s, steps[0]), steps[1..], t);
    }
  }

  lemma StartInv(s: State)
    requires Start(s)
    ensures Inv(s)
  {
    assert s.nil in s.Roots();
  }

  // ---------------------------------------------------------------------------
  // Reachability
  // ---------------------------------------------------------------------------

  /** A chain of pointers that begins in a register. */
  predicate IsPath(s: State, path: seq<Cell>) {
    && path != []
    && path[0] in s.Roots()
    && forall i | 0 <= i < |path| - 1 :: path[i] in s.heap && path[i + 1] in s.heap[path[i]]
  }

  ghost predicate Reachable(s: State, c: Cell) {
    exists path :: IsPath(s, path) && path[|path| - 1] == c
  }

  lemma {:induction false} PathLive(s: State, path: seq<Cell>)
    requires Inv(s) && IsPath(s, path)
    ensures s.arcs.Live(path[|path| - 1])
  {
    var n := |path| - 1;
    if n == 0 {
      var r := path[n];
      assert r in s.Roots() && s.arcs.Live(r);
    } else {
      var c := path[n - 1];
      PathLive(s, path[..n]);
      assert s.arcs.Live(c) && path[n] in s.heap[c];
      var j :| 0 <= j < |s.heap[c]| && s.heap[c][j] == path[n];
    }
  }

  lemma {:induction false} PathBlack(s: State, path: seq<Cell>)
    requires Inv(s) && IsPath(s, path) && s.RootsDark() && s.arcs.grey == [] && s.pending.Nothing?
    ensures path[|path| - 1] in s.arcs.black
  {
    var n := |path| - 1;
    if n == 0 {
      var r := path[n];
      assert r in s.Roots() && s.arcs.Live(r);
    } else {
      var c := path[n - 1];
      PathBlack(s, path[..n]);
      assert c in s.arcs.black && path[n] in s.heap[c];
      var j :| 0 <= j < |s.heap[c]| && s.heap[c][j] == path[n];
    }
  }

  // ---------------------------------------------------------------------------
  // Safety
  // ---------------------------------------------------------------------------

  /** GC safety: whatever the two threads have done, no cell that the program can reach is free,
      so the cell that the next allocation hands out is one that nobody can reach. */
  lemma NothingReachableIsFree(s: State, steps: seq<Step>, t: State)
    requires Start(s) && DisciplinedRun(s, steps) && Play(s, steps) == Some(t)
    ensures Inv(t)
    ensures forall c | Reachable(t, c) :: c !in t.arcs.white
    ensures forall n | Enabled(t, TakeFree(n)) :: !Reachable(t, t.arcs.white[0])
  {
    StartInv(s);
    RunKeeps(s, steps, t);
    forall c | Reachable(t, c)
      ensures c !in t.arcs.white
    {
      var path :| IsPath(t, path) && path[|path| - 1] == c;
      PathLive(t, path);
      Apart(t.arcs, c);
    }
  }

  /** The flip reclaims only cells that the program cannot reach exactly when no register holds
      an ecru cell at that moment. */
  lemma FlipIsSafeIffRootsDark(s: State, added: seq<Cell>)
    requires Inv(s) && Enabled(s, Toggle(added))
    ensures (forall c | Reachable(s, c) :: c !in Apply(s, Toggle(added)).arcs.white) <==> s.RootsDark()
  {
    var t := Apply(s, Toggle(added));
    assert t.arcs.white == s.arcs.ecru + added;
    if s.RootsDark() {
      forall c | Reachable(s, c)
        ensures c !in t.arcs.white
      {
        var path :| IsPath(s, path) && path[|path| - 1] == c;
        PathBlack(s, path);
        Apart(s.arcs, c);
        assert s.arcs.Live(c);
      }
    } else {
      var r :| r in s.Roots() && !s.arcs.Dark(r);
      assert s.arcs.Live(r);
      assert IsPath(s, [r]) && [r][|[r]| - 1] == r;
      assert Reachable(s, r);
    }
  }
}
