/** Lists in a heap of cells: `reverse_in_place` and `list_copy`. */
module CellLists {

  datatype Ptr = Nil | Symbol(name: string) | Number(n: int) | Continuation(k: nat) | At(i: nat)

  datatype Cell = Cell(car: Ptr, cdr: Ptr)

  type Heap = seq<Cell>

  /** The cells of the proper list `p`, in order. */
  predicate IsList(h: Heap, p: Ptr, cells: seq<nat>)
    decreases |cells|
  {
    if cells == [] then p == Nil
    else p == At(cells[0]) && cells[0] < |h| && IsList(h, h[cells[0]].cdr, cells[1..])
  }

  ghost predicate Proper(h: Heap, p: Ptr) {
    exists cells :: IsList(h, p, cells)
  }

  ghost function Spine(h: Heap, p: Ptr): (cells: seq<nat>)
    requires Proper(h, p)
    ensures IsList(h, p, cells)
  {
    var cells :| IsList(h, p, cells);
    cells
  }

  predicate Within(h: Heap, cells: seq<nat>) {
    forall i | 0 <= i < |cells| :: cells[i] < |h|
  }

  function Cars(h: Heap, cells: seq<nat>): seq<Ptr>
    requires Within(h, cells)
  {
    seq(|cells|, i requires 0 <= i < |cells| => h[cells[i]].car)
  }

  lemma {:induction false} SpineUnique(h: Heap, p: Ptr, a: seq<nat>, b: seq<nat>)
    requires IsList(h, p, a) && IsList(h, p, b)
    ensures a == b
    decreases |a|
  {
    if a != [] {
      SpineUnique(h, h[a[0]].cdr, a[1..], b[1..]);
    }
  }

  lemma {:induction false} Suffix(h: Heap, p: Ptr, cells: seq<nat>, i: nat)
    requires IsList(h, p, cells) && i < |cells|
    ensures cells[i] < |h| && IsList(h, At(cells[i]), cells[i..])
    decreases i
  {
    if i > 0 {
      Suffix(h, h[cells[0]].cdr, cells[1..], i - 1);
      assert cells[1..][i - 1..] == cells[i..];
    }
  }

  lemma InHeap(h: Heap, p: Ptr, cells: seq<nat>)
    requires IsList(h, p, cells)
    ensures Within(h, cells)
  {
    forall i | 0 <= i < |cells| ensures cells[i] < |h| {
      Suffix(h, p, cells, i);
    }
  }

  /** No cell is twice on a proper list. */
  lemma SpineDistinct(h: Heap, p: Ptr, cells: seq<nat>)
    requires IsList(h, p, cells)
    ensures forall i, j | 0 <= i < j < |cells| :: cells[i] != cells[j]
  {
    forall i, j | 0 <= i < j < |cells| ensures cells[i] != cells[j] {
      Suffix(h, p, cells, i);
      Suffix(h, p, cells, j);
      if cells[i] == cells[j] {
        SpineUnique(h, At(cells[i]), cells[i..], cells[j..]);
      }
    }
  }

  /** A list depends on its own cells only. */
  lemma {:induction false} ListAgrees(h: Heap, h1: Heap, p: Ptr, cells: seq<nat>)
    requires IsList(h, p, cells) && |h| <= |h1| && Within(h, cells)
    requires forall c | c in cells :: h1[c] == h[c]
    ensures IsList(h1, p, cells) && Within(h1, cells) && Cars(h1, cells) == Cars(h, cells)
    decreases |cells|
  {
    if cells != [] {
      ListAgrees(h, h1, h[cells[0]].cdr, cells[1..]);
    }
  }

  lemma SpineAgrees(h: Heap, h1: Heap, p: Ptr)
    requires Proper(h, p) && |h| <= |h1|
    requires forall c | c in Spine(h, p) && c < |h| :: h1[c] == h[c]
    ensures Proper(h1, p) && Spine(h1, p) == Spine(h, p)
    ensures Within(h, Spine(h, p)) && Within(h1, Spine(h, p))
    ensures Cars(h1, Spine(h, p)) == Cars(h, Spine(h, p))
  {
    var cells := Spine(h, p);
    InHeap(h, p, cells);
    ListAgrees(h, h1, p, cells);
    SpineUnique(h1, p, cells, Spine(h1, p));
  }

  // ---------------------------------------------------------------------------
  // Reversing
  // ---------------------------------------------------------------------------

  /** The heap after the cells of a list have been turned round, one after the other. */
  function Turned(h: Heap, cells: seq<nat>, term: Ptr): (r: Heap)
    requires Within(h, cells)
    ensures |r| == |h|
    decreases |cells|
  {
    if cells == [] then h
    else Turned(h[cells[0] := h[cells[0]].(cdr := term)], cells[1..], At(cells[0]))
  }

  function Reverse(s: seq<nat>): (r: seq<nat>)
    ensures |r| == |s| && forall i | 0 <= i < |r| :: r[i] == s[|s| - 1 - i]
  {
    if s == [] then [] else Reverse(s[1..]) + [s[0]]
  }

  function Head(cells: seq<nat>, term: Ptr): Ptr {
    if cells == [] then term else At(cells[|cells| - 1])
  }

  lemma {:induction false} TurnedElsewhere(h: Heap, cells: seq<nat>, term: Ptr, c: nat)
    requires Within(h, cells) && c < |h|
    ensures Turned(h, cells, term)[c].car == h[c].car
    ensures c !in cells ==> Turned(h, cells, term)[c] == h[c]
    decreases |cells|
  {
    if cells != [] {
      TurnedElsewhere(h[cells[0] := h[cells[0]].(cdr := term)], cells[1..], At(cells[0]), c);
    }
  }

  /** A list turned round in place is the list of the same cells in reverse, in front of `term`. */
  lemma {:induction false} TurnedIsReverse(h: Heap, p: Ptr, cells: seq<nat>, term: Ptr, tail: seq<nat>)
    requires IsList(h, p, cells) && Within(h, cells) && IsList(h, term, tail)
    requires forall c | c in cells :: c !in tail
    ensures IsList(Turned(h, cells, term), Head(cells, term), Reverse(cells) + tail)
    decreases |cells|
  {
    if cells == [] {
      assert Reverse(cells) + tail == tail;
    } else {
      var h1 := h[cells[0] := h[cells[0]].(cdr := term)];
      var rest := cells[1..];
      SpineDistinct(h, p, cells);
      InHeap(h, term, tail);
      ListAgrees(h, h1, h[cells[0]].cdr, rest);
      ListAgrees(h, h1, term, tail);
      assert ([cells[0]] + tail)[1..] == tail;
      TurnedIsReverse(h1, h[cells[0]].cdr, rest, At(cells[0]), [cells[0]] + tail);
      assert Reverse(rest) + ([cells[0]] + tail) == Reverse(cells) + tail;
    }
  }

  // ---------------------------------------------------------------------------
  // Copying
  // ---------------------------------------------------------------------------

  /** The heap with a copy of a list behind it: its cells in order. */
  function Copied(h: Heap, cells: seq<nat>): (r: Heap)
    requires Within(h, cells)
    ensures |r| == |h| + |cells| && r[..|h|] == h
  {
    h + seq(|cells|, i requires 0 <= i < |cells| =>
      Cell(h[cells[i]].car, if i + 1 < |cells| then At(|h| + i + 1) else Nil))
  }

  function CopyHead(h: Heap, cells: seq<nat>): Ptr {
    if cells == [] then Nil else At(|h|)
  }

  /** `k` cells that lie side by side. */
  function Upwards(n: nat, k: nat): (r: seq<nat>)
    ensures |r| == k && forall i | 0 <= i < k :: r[i] == n + i
    decreases k
  {
    if k == 0 then [] else [n] + Upwards(n + 1, k - 1)
  }

  function Downwards(n: nat, k: nat): (r: seq<nat>)
    ensures forall i | 0 <= i < |r| :: n <= r[i] < n + k
    decreases k
  {
    if k == 0 then [] else [n + k - 1] + Downwards(n, k - 1)
  }

  lemma {:induction false} UpwardsList(h: Heap, n: nat, k: nat)
    requires n + k <= |h|
    requires forall i | n <= i < n + k :: h[i].cdr == if i + 1 < n + k then At(i + 1) else Nil
    ensures IsList(h, if k == 0 then Nil else At(n), Upwards(n, k))
    decreases k
  {
    if k > 0 {
      UpwardsList(h, n + 1, k - 1);
    }
  }

  /** The copy is a proper list of new cells with the same contents. */
  lemma CopyIsList(h: Heap, cells: seq<nat>)
    requires Within(h, cells)
    ensures var r := Copied(h, cells);
            var copies := Upwards(|h|, |cells|);
            IsList(r, CopyHead(h, cells), copies) && Cars(r, copies) == Cars(h, cells)
  {
    UpwardsList(Copied(h, cells), |h|, |cells|);
  }

  /** The heap while a copy is being turned round: the new cells from `k` on point forward, those
      before `k` still point backward. */
  function HalfTurned(h: Heap, cells: seq<nat>, k: nat): (r: Heap)
    requires Within(h, cells) && k <= |cells|
    ensures |r| == |h| + |cells|
  {
    h + seq(|cells|, i requires 0 <= i < |cells| =>
      Cell(h[cells[i]].car,
           if i < k then (if i > 0 then At(|h| + i - 1) else Nil)
           else if i + 1 < |cells| then At(|h| + i + 1) else Nil))
  }

  lemma {:induction false} TurnHalf(h: Heap, cells: seq<nat>, k: nat, term: Ptr)
    requires Within(h, cells) && k <= |cells| && term == if k < |cells| then At(|h| + k) else Nil
    ensures Turned(HalfTurned(h, cells, k), Downwards(|h|, k), term) == Copied(h, cells)
    decreases k
  {
    if k == 0 {
      assert HalfTurned(h, cells, k) == Copied(h, cells);
    } else {
      HalfTurnedStep(h, cells, k);
      TurnHalf(h, cells, k - 1, At(|h| + k - 1));
      TurnedCons(HalfTurned(h, cells, k), |h| + k - 1, Downwards(|h|, k - 1), term);
    }
  }

  lemma TurnedCons(h: Heap, c: nat, cells: seq<nat>, term: Ptr)
    requires c < |h| && Within(h, cells)
    ensures Within(h, [c] + cells)
    ensures Turned(h, [c] + cells, term) == Turned(h[c := h[c].(cdr := term)], cells, At(c))
  {
    assert ([c] + cells)[1..] == cells;
  }

  lemma HalfTurnedStep(h: Heap, cells: seq<nat>, k: nat)
    requires Within(h, cells) && 0 < k <= |cells|
    ensures var half := HalfTurned(h, cells, k);
            half[|h| + k - 1 := half[|h| + k - 1].(cdr := if k < |cells| then At(|h| + k) else Nil)]
            == HalfTurned(h, cells, k - 1)
  {
  }

  /** The heap in which `k` cells of a list have been consed up, last first. */
  function Piled(h: Heap, cells: seq<nat>, k: nat): (r: Heap)
    requires Within(h, cells) && k <= |cells|
    ensures |r| == |h| + k && r[..|h|] == h
  {
    h + seq(k, i requires 0 <= i < k => Cell(h[cells[i]].car, PileTop(h, i)))
  }

  lemma PileMore(h: Heap, cells: seq<nat>, k: nat)
    requires Within(h, cells) && k < |cells|
    ensures Piled(h, cells, k + 1) == Piled(h, cells, k) + [Cell(h[cells[k]].car, PileTop(h, k))]
    ensures Piled(h, cells, k)[cells[k]] == h[cells[k]]
  {
  }

  function PileTop(h: Heap, k: nat): Ptr {
    if k == 0 then Nil else At(|h| + k - 1)
  }

  lemma {:induction false} PileIsList(h: Heap, cells: seq<nat>, k: nat)
    requires Within(h, cells) && k <= |cells|
    ensures IsList(Piled(h, cells, k), PileTop(h, k), Downwards(|h|, k))
    decreases k
  {
    if k > 0 {
      PileIsList(h, cells, k - 1);
      var low := Downwards(|h|, k - 1);
      InHeap(Piled(h, cells, k - 1), PileTop(h, k - 1), low);
      ListAgrees(Piled(h, cells, k - 1), Piled(h, cells, k), PileTop(h, k - 1), low);
      assert Downwards(|h|, k)[1..] == low;
    }
  }

  /** Consing the elements up and turning the result round is copying. */
  lemma PileTurned(h: Heap, cells: seq<nat>)
    requires Within(h, cells)
    ensures var pile, top := Piled(h, cells, |cells|), PileTop(h, |cells|);
            && Proper(pile, top) && Within(pile, Spine(pile, top))
            && Turned(pile, Spine(pile, top), Nil) == Copied(h, cells)
            && Head(Spine(pile, top), Nil) == CopyHead(h, cells)
  {
    var n := |cells|;
    PileIsList(h, cells, n);
    InHeap(Piled(h, cells, n), PileTop(h, n), Spine(Piled(h, cells, n), PileTop(h, n)));
    SpineUnique(Piled(h, cells, n), PileTop(h, n), Spine(Piled(h, cells, n), PileTop(h, n)), Downwards(|h|, n));
    assert Piled(h, cells, n) == HalfTurned(h, cells, n);
    TurnHalf(h, cells, n, Nil);
    LastDown(|h|, n);
  }

  lemma {:induction false} LastDown(n: nat, k: nat)
    ensures |Downwards(n, k)| == k && (k > 0 ==> Downwards(n, k)[k - 1] == n)
    decreases k
  {
    if k > 0 {
      LastDown(n, k - 1);
    }
  }
}
