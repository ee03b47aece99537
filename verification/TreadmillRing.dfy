/** The pointer ring of the collector.

  The four pointers and the links of the cells are updated here as `src/Scheme.cpp` updates
  them; ghost fields hold the ring and the lengths of its arcs, `Represents` says which four
  sequences they stand for, and every method makes one of the moves of `TreadmillArcs`.
 */
module TreadmillRing {
  import opened TreadmillArcs
  import G = TreadmillGrowth

  class Cell {
    var colour: bool
    var cw: Cell
    var ccw: Cell

    constructor (colour: bool)
      ensures this.colour == colour && cw == this && ccw == this
    {
      this.colour := colour;
      cw := this;
      ccw := this;
    }
  }

  function Succ(i: nat, n: nat): nat {
    if i + 1 == n then 0 else i + 1
  }

  function Pred(i: nat, n: nat): nat
    requires n > 0
  {
    if i == 0 then n - 1 else i - 1
  }

  ghost predicate NoDup(r: seq<Cell>) {
    forall i, j | 0 <= i < j < |r| :: r[i] != r[j]
  }

  /** The links of `r` run round it, clockwise and back. */
  ghost predicate Linked(r: seq<Cell>)
    reads r
  {
    && (forall i {:trigger r[i].cw} | 0 <= i < |r| :: r[i].cw == r[Succ(i, |r|)])
    && (forall i {:trigger r[i].ccw} | 0 <= i < |r| :: r[i].ccw == r[Pred(i, |r|)])
  }

  ghost function Removed(r: seq<Cell>, k: nat): seq<Cell>
    requires k < |r|
  {
    r[..k] + r[k + 1..]
  }

  ghost function Inserted(r: seq<Cell>, j: nat, p: Cell): seq<Cell>
    requires j < |r|
  {
    r[..j + 1] + [p] + r[j + 1..]
  }

  /** The ring `r` is made of the four arcs of `a`, whose lengths are given. */
  ghost predicate Shape(a: Arcs<Cell>, r: seq<Cell>, w: nat, e: nat, g: nat) {
    && |a.white| == w && |a.ecru| == e && |a.grey| == g && |a.black| == |r| - w - e - g
    && (forall i {:trigger a.white[i]} | 0 <= i < w :: a.white[i] == r[i])
    && (forall i {:trigger a.ecru[i]} | 0 <= i < e :: a.ecru[i] == r[w + i])
    && (forall i {:trigger a.grey[i]} | 0 <= i < g :: a.grey[i] == r[w + e + i])
    && (forall i {:trigger a.black[i]} | 0 <= i < |a.black| :: a.black[i] == r[w + e + g + i])
  }

  /** Where the cell that ends up at `i` was, when the cell at `k` moves to the end of the first
      `m` cells. */
  function Origin(k: nat, m: nat, i: nat): nat {
    if i < k then i else if i + 1 < m then i + 1 else if i + 1 == m then k else i
  }

  ghost predicate MovedTo(r: seq<Cell>, k: nat, m: nat, t: seq<Cell>)
    requires k < m <= |r|
  {
    |t| == |r| && forall i | 0 <= i < |r| :: t[i] == r[Origin(k, m, i)]
  }

  lemma MovedHolds(r: seq<Cell>, k: nat, m: nat, j: nat)
    requires NoDup(r) && k < m <= |r| && 2 <= m && j == m - 2
    ensures MovedTo(r, k, m, Inserted(Removed(r, k), j, r[k]))
    ensures NoDup(Inserted(Removed(r, k), j, r[k]))
  {
    var t := Inserted(Removed(r, k), j, r[k]);
    RemovedNoDup(r, k);
    InsertedNoDup(Removed(r, k), j, r[k]);
    forall i | 0 <= i < |r|
      ensures t[i] == r[Origin(k, m, i)]
    {
      MovedAt(r, k, m, i);
    }
  }

  lemma MovedAt(r: seq<Cell>, k: nat, m: nat, i: nat)
    requires k < m <= |r| && 2 <= m && i < |r|
    ensures Inserted(Removed(r, k), m - 2, r[k])[i] == r[Origin(k, m, i)]
  {
  }

  ghost predicate Within(t: seq<Cell>, r: seq<Cell>) {
    forall i | 0 <= i < |t| :: t[i] in r
  }

  lemma MovedWithin(r: seq<Cell>, k: nat, m: nat, t: seq<Cell>)
    requires k < m <= |r| && MovedTo(r, k, m, t)
    ensures Within(t, r)
  {
  }

  lemma RemovedNoDup(r: seq<Cell>, k: nat)
    requires NoDup(r) && k < |r|
    ensures |Removed(r, k)| == |r| - 1 && NoDup(Removed(r, k)) && r[k] !in Removed(r, k)
    ensures forall c :: c in Removed(r, k) <==> c in r && c != r[k]
    ensures forall i | 0 <= i < |r| - 1 :: Removed(r, k)[i] in r
    ensures forall i | 0 <= i < |r| - 1 :: Removed(r, k)[i] == if i < k then r[i] else r[i + 1]
  {
  }

  lemma InsertedNoDup(s: seq<Cell>, j: nat, p: Cell)
    requires NoDup(s) && p !in s && j < |s|
    ensures NoDup(Inserted(s, j, p))
  {
  }

  lemma EcruAt(a: Arcs<Cell>, r: seq<Cell>, w: nat, e: nat, g: nat, k: nat)
    requires NoDup(r) && Shape(a, r, w, e, g) && k < |r|
    ensures r[k] in a.ecru <==> w <= k < w + e
    ensures w <= k < w + e ==> a.ecru[k - w] == r[k] && r[k] !in a.ecru[..k - w]
  {
    if w <= k < w + e {
      assert a.ecru[k - w] == r[k];
    }
  }

  lemma EcruLive(a: Arcs<Cell>, roots: seq<Cell>)
    requires forall p | p in roots :: p in a.ecru
    ensures forall p | p in roots :: a.Live(p)
  {
  }

  lemma ShadeKeeps(a: Arcs<Cell>, p: Cell, roots: seq<Cell>, spare: Cell)
    requires (forall q | q in roots :: a.Live(q)) && spare in a.ecru && spare != p
    ensures forall q | q in roots :: Shade(a, p).Live(q)
    ensures spare in Shade(a, p).ecru
  {
    WithoutOne(a.ecru, p);
    forall q | q in a.ecru && q != p
      ensures q in Without(a.ecru, p)
    {
      assert multiset(Without(a.ecru, p))[q] == multiset(a.ecru)[q];
    }
  }

  lemma LiveAt(a: Arcs<Cell>, r: seq<Cell>, w: nat, e: nat, g: nat, p: Cell) returns (k: nat)
    requires Shape(a, r, w, e, g) && a.Live(p)
    ensures w <= k < |r| && r[k] == p
  {
    if p in a.ecru {
      var i :| 0 <= i < |a.ecru| && a.ecru[i] == p;
      k := w + i;
    } else if p in a.grey {
      var i :| 0 <= i < |a.grey| && a.grey[i] == p;
      k := w + e + i;
    } else {
      var i :| 0 <= i < |a.black| && a.black[i] == p;
      k := w + e + g + i;
    }
  }

  /** Shading an ecru cell moves one cell of the ring to the end of the ecru cells. */
  lemma ShadeShape(a: Arcs<Cell>, r: seq<Cell>, w: nat, e: nat, g: nat, k: nat, t: seq<Cell>)
    requires NoDup(r) && Shape(a, r, w, e, g) && w <= k < w + e
    requires MovedTo(r, k, w + e, t)
    ensures Shape(Shade(a, r[k]), t, w, e - 1, g + 1)
  {
    EcruAt(a, r, w, e, g, k);
    WithoutAt(a.ecru, k - w);
    ShadedAt(a, r, w, e, g, k, t, a.ecru[..k - w] + a.ecru[k - w + 1..], [r[k]] + a.grey);
  }

  /** The ring once cell `k` has moved, and that it stands for the shaded arcs. */
  lemma ShadeMoves(a: Arcs<Cell>, r: seq<Cell>, w: nat, e: nat, g: nat, k: nat) returns (t: seq<Cell>)
    requires NoDup(r) && Shape(a, r, w, e, g) && w <= k < w + e
    ensures MovedTo(r, k, w + e, t) && Shape(Shade(a, r[k]), t, w, e - 1, g + 1) && Within(t, r)
  {
    t := seq(|r|, i requires 0 <= i < |r| => r[Origin(k, w + e, i)]);
    ShadeShape(a, r, w, e, g, k, t);
    MovedWithin(r, k, w + e, t);
  }

  lemma MovedOnce(r: seq<Cell>, k: nat, m: nat, t: seq<Cell>, u: seq<Cell>)
    requires k < m <= |r| && MovedTo(r, k, m, t) && MovedTo(r, k, m, u)
    ensures t == u
  {
  }

  lemma ShadedAt(a: Arcs<Cell>, r: seq<Cell>, w: nat, e: nat, g: nat, k: nat, t: seq<Cell>,
                 ecru: seq<Cell>, grey: seq<Cell>)
    requires Shape(a, r, w, e, g) && w <= k < w + e
    requires MovedTo(r, k, w + e, t)
    requires ecru == a.ecru[..k - w] + a.ecru[k - w + 1..] && grey == [r[k]] + a.grey
    ensures Shape(Arcs(a.white, ecru, grey, a.black), t, w, e - 1, g + 1)
  {
    forall i | 0 <= i < e - 1
      ensures ecru[i] == t[w + i]
    {
      assert ecru[i] == a.ecru[if i < k - w then i else i + 1];
    }
    forall i | 0 <= i < g + 1
      ensures grey[i] == t[w + e - 1 + i]
    {
      assert i > 0 ==> grey[i] == a.grey[i - 1];
    }
  }

  lemma AllocateShape(a: Arcs<Cell>, r: seq<Cell>, w: nat, e: nat, g: nat)
    requires Shape(a, r, w, e, g) && 1 <= w
    ensures Shape(Allocate(a), r[1..] + [r[0]], w - 1, e, g)
  {
    assert r[1..] == a.white[1..] + a.ecru + a.grey + a.black;
  }

  lemma AdvanceShape(a: Arcs<Cell>, r: seq<Cell>, w: nat, e: nat, g: nat)
    requires Shape(a, r, w, e, g) && 1 <= g
    ensures Shape(Advance(a), r, w, e, g - 1)
  {
    assert a.grey == a.grey[..g - 1] + [a.grey[g - 1]];
  }

  lemma FlipShape(a: Arcs<Cell>, r: seq<Cell>, e: nat)
    requires Shape(a, r, 0, e, 0)
    ensures Shape(Flip(a), r, e, |r| - e, 0)
  {
    assert a.white == [] && a.grey == [];
  }

  lemma GrowShape(a: Arcs<Cell>, r: seq<Cell>, w: nat, e: nat, g: nat, cells: seq<Cell>)
    requires Shape(a, r, w, e, g) && w <= |r|
    ensures Shape(Grow(a, cells), r[..w] + cells + r[w..], w + |cells|, e, g)
  {
    assert r[..w] == a.white;
    assert r[w..] == a.ecru + a.grey + a.black;
  }

  // ---------------------------------------------------------------------------
  // Links
  // ---------------------------------------------------------------------------

  /** Where the neighbours of a cell are once cell `k` is gone. */
  lemma RemovedNeighbours(r: seq<Cell>, k: nat, i: nat)
    requires 2 <= |r| && k < |r| && i < |r| - 1
    ensures var n := |r|;
            var s := Removed(r, k);
            var ri := if i < k then i else i + 1;
            && s[i] == r[ri]
            && s[Succ(i, n - 1)] == (if ri == Pred(k, n) then r[Succ(k, n)] else r[Succ(ri, n)])
            && s[Pred(i, n - 1)] == (if ri == Succ(k, n) then r[Pred(k, n)] else r[Pred(ri, n)])
  {
  }

  lemma InsertedNeighbours(s: seq<Cell>, j: nat, p: Cell, i: nat)
    requires j < |s| && i < |s| + 1
    ensures var n := |s|;
            var r := Inserted(s, j, p);
            if i == j + 1 then
              && r[i] == p
              && r[Succ(i, n + 1)] == s[Succ(j, n)]
              && r[Pred(i, n + 1)] == s[j]
            else
              var si := if i <= j then i else i - 1;
              && r[i] == s[si]
              && r[Succ(i, n + 1)] == (if si == j then p else s[Succ(si, n)])
              && r[Pred(i, n + 1)] == (if si == Succ(j, n) then p else s[Pred(si, n)])
  {
  }

  /** Where the cell next to the new place is, once cell `k` of the first `m` is gone. */
  lemma PlaceAfter(r: seq<Cell>, k: nat, m: nat, j: nat)
    requires 2 <= |r| && k < m <= |r|
    requires j == if k == m - 1 then (if k == 0 then |r| - 2 else k - 1) else m - 2
    ensures j < |r| - 1 && Removed(r, k)[j] == r[if k == m - 1 then Pred(k, |r|) else m - 1]
  {
  }

  /** `unlink`: the neighbours of `p` are linked to each other; `p` keeps its own links. */
  method Unlink(p: Cell, ghost r: seq<Cell>, ghost k: nat)
    requires NoDup(r) && Linked(r) && 2 <= |r|
    requires k < |r| && r[k] == p
    modifies r
    ensures Linked(Removed(r, k))
    ensures forall c | c in r :: c.colour == old(c.colour)
  {
    ghost var n := |r|;
    var cw := p.cw;
    var ccw := p.ccw;
    assert cw == r[Succ(k, n)] && ccw == r[Pred(k, n)];
    cw.ccw := ccw;
    ccw.cw := cw;

    ghost var s := Removed(r, k);
    forall i {:trigger s[i].cw} {:trigger s[i].ccw} | 0 <= i < |s|
      ensures s[i].cw == s[Succ(i, |s|)]
      ensures s[i].ccw == s[Pred(i, |s|)]
    {
      RemovedNeighbours(r, k, i);
    }
  }

  /** `p` is linked between `at` and its clockwise neighbour. */
  method LinkAfter(p: Cell, at: Cell, ghost s: seq<Cell>, ghost j: nat)
    requires NoDup(s) && Linked(s) && p !in s
    requires j < |s| && s[j] == at
    modifies s, p
    ensures Linked(Inserted(s, j, p))
    ensures forall c | c in s || c == p :: c.colour == old(c.colour)
  {
    assert at.cw == s[Succ(j, |s|)];
    p.ccw := at;
    p.cw := at.cw;
    p.cw.ccw := p;
    at.cw := p;

    ghost var r := Inserted(s, j, p);
    forall i {:trigger r[i].cw} {:trigger r[i].ccw} | 0 <= i < |r|
      ensures r[i].cw == r[Succ(i, |r|)]
      ensures r[i].ccw == r[Pred(i, |r|)]
    {
      InsertedNeighbours(s, j, p, i);
    }
  }

  /** Cells as the allocator hands them out, all of one colour and not linked yet. */
  method NewCells(n: nat, colour: bool) returns (cells: seq<Cell>)
    ensures |cells| == n && NoDup(cells) && fresh(cells)
    ensures forall c | c in cells :: c.colour == colour
  {
    cells := [];
    while |cells| < n
      invariant |cells| <= n && fresh(cells)
      invariant forall i, j | 0 <= i < j < |cells| :: cells[i] != cells[j]
      invariant forall c | c in cells :: c.colour == colour
    {
      var c := new Cell(colour);
      cells := cells + [c];
    }
  }

  /** The loop of `alloc_cellseg` that links a segment to itself. */
  method LinkSegment(cells: seq<Cell>)
    requires cells != [] && NoDup(cells)
    modifies cells
    ensures Linked(cells)
    ensures forall c | c in cells :: c.colour == old(c.colour)
  {
    var last := |cells| - 1;
    for i := 0 to |cells|
      invariant forall j {:trigger cells[j].cw} | 0 <= j < i :: cells[j].cw == cells[Succ(j, |cells|)]
      invariant forall j {:trigger cells[j].ccw} | 0 <= j < i :: cells[j].ccw == cells[Pred(j, |cells|)]
      invariant forall c | c in cells :: c.colour == old(c.colour)
    {
      cells[i].cw := if i == last then cells[0] else cells[i + 1];
      cells[i].ccw := if i == 0 then cells[last] else cells[i - 1];
    }
  }

  /** The loop of `alloc_cellseg` over the first half of a segment, to the cell behind it. */
  method LightHalf(cells: seq<Cell>) returns (t: Cell)
    requires 2 <= |cells| && Linked(cells) && forall c | c in cells :: !c.colour
    modifies cells
    ensures t == cells[|cells| / 2] && Linked(cells) && forall c | c in cells :: !c.colour
  {
    t := cells[0];
    var i := 0;
    while i < |cells| / 2
      invariant i <= |cells| / 2 && t == cells[i]
      invariant forall c | c in cells :: !c.colour
      invariant Linked(cells)
    {
      t.colour := false;
      t := t.cw;
      i := i + 1;
    }
  }

  // ---------------------------------------------------------------------------
  // The collector's pointers
  // ---------------------------------------------------------------------------

  class Treadmill {
    var free: Cell
    var bottom: Cell
    var top: Cell
    var scan: Cell
    var dark: bool
    /** Insertions since the last flip, cells in all, and cells asked for beside the ring. */
    var inserts: nat
    var total: nat
    var request: int
    /** The ring, clockwise from `free`, and the lengths of its white, ecru and grey arcs. */
    ghost var ring: seq<Cell>
    ghost var w: nat
    ghost var e: nat
    ghost var g: nat

    function Counters(): G.Counters
      reads `inserts, `total, `request
    {
      G.Counters(inserts, total, request)
    }

    ghost predicate Pointers()
      reads `free, `bottom, `top, `scan, `ring, `w, `e, `g
    {
      && 2 <= |ring| && 1 <= e && w + e + g <= |ring|
      && free == ring[0]
      && bottom == ring[w]
      && top == ring[w + e - 1]
      && scan == ring[w + e + g - 1]
    }

    /** Grey and black cells carry the dark bit, ecru cells do not; free cells carry either. */
    ghost predicate Colours()
      reads `dark, `ring, `w, `e, ring
    {
      forall i | w <= i < |ring| :: ring[i].colour == if i < w + e then !dark else dark
    }

    ghost predicate RingValid()
      reads `free, `bottom, `top, `scan, `dark, `ring, `w, `e, `g, ring
    {
      NoDup(ring) && Linked(ring) && Pointers() && Colours()
    }

    /** The pointers stand for the arcs `a`. */
    ghost predicate Represents(a: Arcs<Cell>)
      reads `free, `bottom, `top, `scan, `dark, `ring, `w, `e, `g, ring
    {
      RingValid() && Shape(a, ring, w, e, g)
    }

    /** `alloc_cellseg`: one segment of cells, half of them free, half of them ecru. */
    constructor (cells: seq<Cell>)
      requires 2 <= |cells| && NoDup(cells) && forall c | c in cells :: !c.colour
      modifies cells
      ensures Represents(Arcs(cells[..|cells| / 2], cells[|cells| / 2..], [], [])) && dark && ring == cells
      ensures inserts == 0 && total == |cells| && request == -1
    {
      var n := |cells|;
      dark, inserts, total, request := true, 0, n, -1;
      LinkSegment(cells);
      assert Pred(0, n) == n - 1;
      free := cells[0];
      top := cells[0].ccw;
      scan := cells[0].ccw;
      var t := LightHalf(cells);
      bottom := t;
      ring, w, e, g := cells, n / 2, n - n / 2, 0;
    }

    /** `insert_treadmill`, for a cell that is not free.  With two ecru cells it shades the cell;
        with a single one, the code's "Bottom and Top met", no four arcs describe the pointers any
        more, because the cell that `bottom` names is not ecru. */
    method Insert(p: Cell, ghost a: Arcs<Cell>)
      requires Represents(a) && a.Live(p)
      modifies `free, `bottom, `top, `scan, `inserts, `ring, `e, `g, ring
      ensures old(p.colour == dark || bottom != top) ==> Represents(Shade(a, p)) && Within(ring, old(ring))
      ensures old(p.colour != dark && bottom == top) ==> bottom.colour == dark && forall b :: !Represents(b)
      ensures inserts == old(inserts) + if old(p.colour) != dark then 1 else 0
      ensures Counters() == if old(p.colour) != dark then G.After(old(Counters()), G.Insertion) else old(Counters())
    {
      if p.colour == dark {
        DarkStays(p, a);
      } else {
        InsertAnyLight(p, a);
      }
    }

    /** An ecru cell, of which there may be one only. */
    method InsertAnyLight(p: Cell, ghost a: Arcs<Cell>)
      requires Represents(a) && a.Live(p) && p.colour != dark
      modifies `free, `bottom, `top, `scan, `inserts, `ring, `e, `g, ring
      ensures old(bottom != top) ==> Represents(Shade(a, p)) && Within(ring, old(ring))
      ensures old(bottom == top) ==> bottom.colour == dark && forall b :: !Represents(b)
      ensures inserts == old(inserts) + 1
    {
      ghost var k := LightAt(p, a);
      ghost var t := ShadeMoves(a, ring, w, e, g, k);
      InsertEcru(p, k, Shade(a, p), t);
    }

    /** Where a cell is that does not carry the dark bit, ... */
    lemma LightAt(p: Cell, a: Arcs<Cell>) returns (k: nat)
      requires Represents(a) && a.Live(p) && p.colour != dark
      ensures w <= k < w + e && ring[k] == p
    {
      k := LiveAt(a, ring, w, e, g, p);
    }

    /** ... and that one which does is not ecru. */
    lemma DarkStays(p: Cell, a: Arcs<Cell>)
      requires Represents(a) && a.Live(p) && p.colour == dark
      ensures Shade(a, p) == a
    {
      var k := LiveAt(a, ring, w, e, g, p);
      EcruAt(a, ring, w, e, g, k);
    }

    method InsertEcru(p: Cell, ghost k: nat, ghost b: Arcs<Cell>, ghost t: seq<Cell>)
      requires RingValid() && w <= k < w + e && ring[k] == p
      requires MovedTo(ring, k, w + e, t) && Shape(b, t, w, e - 1, g + 1) && Within(t, ring)
      modifies `free, `bottom, `top, `scan, `inserts, `ring, `e, `g, ring
      ensures 2 <= old(e) ==> Represents(b) && Within(ring, old(ring))
      ensures old(e) == 1 ==> bottom.colour == dark
      ensures inserts == old(inserts) + 1
    {
      InsertLight(p, k, t);
    }

    /** The body of `insert_treadmill`, by positions on the ring. */
    method InsertLight(p: Cell, ghost k: nat, ghost t: seq<Cell>)
      requires RingValid() && w <= k < w + e && ring[k] == p && MovedTo(ring, k, w + e, t)
      modifies `free, `bottom, `top, `scan, `inserts, `ring, `e, `g, ring
      ensures 2 <= old(e) ==> RingValid() && ring == t && e == old(e) - 1 && g == old(g) + 1
      ensures old(e) == 1 ==> bottom.colour == dark
      ensures inserts == old(inserts) + 1
    {
      var error, at := AdjustPointers(p, k);
      if error {
        return;
      }
      MoveCell(p, at, k);
      if 2 <= old(e) {
        MovedOnce(old(ring), k, w + old(e), ring, t);
      }
    }

    /** The first half of `insert_treadmill`: the four pointers let go of `p`. */
    method AdjustPointers(p: Cell, ghost k: nat) returns (error: bool, at: Cell)
      requires RingValid() && k < w + e && ring[k] == p
      modifies `free, `bottom, `top, `scan, `inserts
      ensures error <==> k == 0 < w
      ensures error ==> free == old(free) && bottom == old(bottom) && top == old(top) && scan == old(scan)
      ensures !error ==> at == ring[if k == w + e - 1 then Pred(k, |ring|) else w + e - 1]
      ensures !error && w <= k && 2 <= e ==>
        && free == ring[if k == 0 then 1 else 0]
        && bottom == ring[if k == w then w + 1 else w]
        && top == ring[if k == w + e - 1 then w + e - 2 else w + e - 1]
        && scan == if g == 0 then p else ring[w + e + g - 1]
      ensures e == 1 && k == w ==> bottom == p
      ensures inserts == old(inserts) + if error then 0 else 1
    {
      error := false;
      assert p.ccw == ring[Pred(k, |ring|)] && p.cw == ring[Succ(k, |ring|)];
      at := top;
      if p == top {
        top := top.ccw;
        at := top;
      } else if p == bottom {
        if bottom == free {
          free := bottom.cw;
        }
        bottom := bottom.cw;
      } else if p == free {
        error := true;
        return;
      }
      if scan == at {
        scan := p;
      }
      inserts := inserts + 1;
    }

    /** The second half: `p` moves to its new place on the ring. */
    method MoveCell(p: Cell, at: Cell, ghost k: nat)
      requires NoDup(ring) && Linked(ring) && Colours() && 2 <= |ring| && 1 <= e && w + e + g <= |ring|
      requires k < w + e && ring[k] == p
      requires at == ring[if k == w + e - 1 then Pred(k, |ring|) else w + e - 1]
      requires w <= k && 2 <= e ==>
        && free == ring[if k == 0 then 1 else 0]
        && bottom == ring[if k == w then w + 1 else w]
        && top == ring[if k == w + e - 1 then w + e - 2 else w + e - 1]
        && scan == if g == 0 then p else ring[w + e + g - 1]
      modifies `ring, `e, `g, ring
      ensures p.colour == dark
      ensures w <= k && 2 <= old(e) ==>
                RingValid() && MovedTo(old(ring), k, w + old(e), ring) && e == old(e) - 1 && g == old(g) + 1
    {
      ghost var t := InsertLinks(p, at, k);
      if w <= k && 2 <= e {
        Reshape(p, k, t);
      }
    }

    /** The last six assignments of `insert_treadmill`. */
    method InsertLinks(p: Cell, at: Cell, ghost k: nat) returns (ghost t: seq<Cell>)
      requires NoDup(ring) && Linked(ring) && 2 <= |ring| && w + e + g <= |ring|
      requires k < w + e && ring[k] == p
      requires at == ring[if k == w + e - 1 then Pred(k, |ring|) else w + e - 1]
      modifies ring
      ensures 2 <= w + e ==> Linked(t) && NoDup(t) && MovedTo(ring, k, w + e, t)
      ensures p.colour == dark
      ensures forall c | c in ring && c != p :: c.colour == old(c.colour)
    {
      ghost var j := if k == w + e - 1 then (if k == 0 then |ring| - 2 else k - 1) else w + e - 2;
      PlaceAfter(ring, k, w + e, j);
      MoveLinks(p, at, k, j);
      t := Inserted(Removed(ring, k), j, p);
      if 2 <= w + e {
        MovedHolds(ring, k, w + e, j);
      }
    }

    method MoveLinks(p: Cell, at: Cell, ghost k: nat, ghost j: nat)
      requires NoDup(ring) && Linked(ring) && 2 <= |ring| && k < |ring| && ring[k] == p
      requires j < |ring| - 1 && Removed(ring, k)[j] == at
      modifies ring
      ensures Linked(Inserted(Removed(ring, k), j, p)) && p.colour == dark
      ensures forall c | c in ring && c != p :: c.colour == old(c.colour)
    {
      RemovedNoDup(ring, k);
      Unlink(p, ring, k);
      Relink(p, at, Removed(ring, k), j);
    }

    method Relink(p: Cell, at: Cell, ghost s: seq<Cell>, ghost j: nat)
      requires NoDup(s) && Linked(s) && p !in s && j < |s| && s[j] == at
      modifies s, p
      ensures Linked(Inserted(s, j, p)) && p.colour == dark
      ensures forall c | c in s :: c.colour == old(c.colour)
    {
      p.colour := dark;
      LinkAfter(p, at, s, j);
    }

    /** The ghost view of the ring follows the pointers. */
    ghost method Reshape(p: Cell, k: nat, t: seq<Cell>)
      requires 2 <= |ring| && w + e + g <= |ring|
      requires 2 <= e && w <= k < w + e && ring[k] == p
      requires MovedTo(ring, k, w + e, t) && Linked(t) && NoDup(t)
      requires free == ring[if k == 0 then 1 else 0]
      requires bottom == ring[if k == w then w + 1 else w]
      requires top == ring[if k == w + e - 1 then w + e - 2 else w + e - 1]
      requires scan == if g == 0 then p else ring[w + e + g - 1]
      requires forall i | w <= i < |ring| :: ring[i].colour == if i == k || w + e <= i then dark else !dark
      modifies `ring, `e, `g
      ensures RingValid()
      ensures ring == t && e == old(e) - 1 && g == old(g) + 1
    {
      ring, e, g := t, e - 1, g + 1;
    }

    /** The second half of `get_cell`: the free cell at `free` becomes black. */
    method GetFree(ghost a: Arcs<Cell>) returns (x: Cell)
      requires Represents(a) && free != bottom
      modifies `free, `ring, `w, free
      ensures Represents(Allocate(a)) && x == a.white[0]
    {
      AllocateShape(a, ring, w, e, g);
      x := StepFree();
    }

    method StepFree() returns (x: Cell)
      requires RingValid() && free != bottom
      modifies `free, `ring, `w, free
      ensures RingValid() && x == old(free) && ring == old(ring)[1..] + [old(ring)[0]] && w == old(w) - 1
    {
      x := free;
      free := free.cw;
      x.colour := dark;
      assert x == ring[0];
      RotateNeighbours(ring);
      ring, w := ring[1..] + [ring[0]], w - 1;
    }

    /** The scanner has dealt with the cell at `scan`. */
    method AdvanceScan(ghost a: Arcs<Cell>)
      requires Represents(a) && scan != top
      modifies `scan, `g
      ensures Represents(Advance(a))
    {
      AdvanceShape(a, ring, w, e, g);
      StepScan();
    }

    method StepScan()
      requires RingValid() && scan != top
      modifies `scan, `g
      ensures RingValid() && g == old(g) - 1
    {
      assert scan.ccw == ring[Pred(w + e + g - 1, |ring|)];
      scan := scan.ccw;
      g := g - 1;
    }

    /** The exchange of the arcs in `treadmill_flip`. */
    method Exchange(ghost a: Arcs<Cell>)
      requires Represents(a) && free == bottom && scan == top && a.black != []
      modifies `dark, `bottom, `top, `scan, `w, `e, `g
      ensures Represents(TreadmillArcs.Flip(a)) && dark != old(dark)
    {
      assert w == 0 && g == 0;
      FlipShape(a, ring, e);
      ExchangePointers();
    }

    method ExchangePointers()
      requires RingValid() && free == bottom && scan == top && w + e + g < |ring|
      modifies `dark, `bottom, `top, `scan, `w, `e, `g
      ensures RingValid() && w == old(e) && e == |ring| - w && g == 0 && dark != old(dark)
    {
      assert w == 0 && g == 0;
      dark := !dark;
      assert top.cw == ring[Succ(e - 1, |ring|)] && free.ccw == ring[Pred(0, |ring|)];
      bottom := top.cw;
      top := free.ccw;
      scan := top;
      w, e, g := e, |ring| - e, 0;
    }

    /** `treadmill_mark_roots`.  `spare` is a cell that is ecru and not a root: while there is
        one, every insertion finds two ecru cells. */
    method MarkRoots(roots: seq<Cell>, ghost a: Arcs<Cell>, ghost spare: Cell)
      requires Represents(a) && (forall p | p in roots :: a.Live(p))
      requires spare in a.ecru && spare !in roots
      modifies `free, `bottom, `top, `scan, `inserts, `ring, `e, `g, ring
      ensures Represents(ShadeAll(a, roots)) && forall p | p in roots :: p.colour == dark
      ensures inserts == old(inserts) + |ShadeAll(a, roots).grey| - |a.grey|
    {
      ghost var b := a;
      for i := 0 to |roots|
        invariant b == ShadeAll(a, roots[..i]) && Represents(b) && Within(ring, old(ring))
        invariant inserts == old(inserts) + |b.grey| - |a.grey|
        invariant forall p | p in roots :: b.Live(p)
        invariant spare in b.ecru
      {
        assert roots[..i + 1][..i] == roots[..i];
        MarkRoot(roots[i], b, spare);
        ShadeKeeps(b, roots[i], roots, spare);
        b := Shade(b, roots[i]);
      }
      assert roots[..|roots|] == roots;
      RootsDark(a, roots);
    }

    /** Marked roots carry the dark bit. */
    lemma RootsDark(a: Arcs<Cell>, roots: seq<Cell>)
      requires Represents(ShadeAll(a, roots)) && forall p | p in roots :: a.Live(p)
      ensures forall p | p in roots :: p.colour == dark
    {
      var b := ShadeAll(a, roots);
      ShadeAllMarks(a, roots);
      forall p | p in roots ensures p.colour == dark {
        assert MarkedAs(a, b, p in roots, p) && b.Dark(p);
        DarkColour(b, p);
      }
    }

    lemma DarkColour(a: Arcs<Cell>, p: Cell)
      requires Represents(a) && a.Dark(p)
      ensures p.colour == dark
    {
      if p in a.grey {
        var i :| 0 <= i < |a.grey| && a.grey[i] == p;
        assert p == ring[w + e + i];
      } else {
        var i :| 0 <= i < |a.black| && a.black[i] == p;
        assert p == ring[w + e + g + i];
      }
    }

    method MarkRoot(p: Cell, ghost a: Arcs<Cell>, ghost spare: Cell)
      requires Represents(a) && a.Live(p) && spare in a.ecru && spare != p
      modifies `free, `bottom, `top, `scan, `inserts, `ring, `e, `g, ring
      ensures Represents(Shade(a, p)) && Within(ring, old(ring))
      ensures inserts == old(inserts) + |Shade(a, p).grey| - |a.grey|
    {
      TwoEcru(p, a, spare);
      Insert(p, a);
    }

    /** While another cell is ecru, `bottom` and `top` differ or the cell is dark. */
    lemma TwoEcru(p: Cell, a: Arcs<Cell>, spare: Cell)
      requires Represents(a) && a.Live(p) && spare in a.ecru && spare != p
      ensures p.colour == dark || bottom != top
      ensures p.colour == dark <==> p !in a.ecru
    {
      var k := LiveAt(a, ring, w, e, g, spare);
      var j := LiveAt(a, ring, w, e, g, p);
      EcruAt(a, ring, w, e, g, k);
      EcruAt(a, ring, w, e, g, j);
    }

    /** New memory is spliced in before `bottom`, cell by cell.  It joins the free cells; but a
        single new cell is left pointing to itself, and the ring is broken. */
    method Splice(size: nat, ghost a: Arcs<Cell>) returns (ghost cells: seq<Cell>)
      requires Represents(a) && free != bottom
      modifies `ring, `w, ring
      ensures |cells| == size && fresh(cells) && Within(ring, old(ring) + cells)
      ensures size != 1 ==> Represents(Grow(a, cells))
      ensures size == 1 ==> bottom.ccw.ccw == bottom.ccw && forall b :: !Represents(b)
    {
      var added := NewCells(size, !dark);
      cells := added;
      GrowShape(a, ring, w, e, g, added);
      SpliceRing(added);
      if size == 1 {
        NoRing();
      }
    }

    /** A cell that is its own neighbour is on no ring. */
    lemma NoRing()
      requires bottom.ccw.ccw == bottom.ccw
      ensures !RingValid()
    {
    }

    method SpliceRing(cells: seq<Cell>)
      requires RingValid() && 1 <= w && NoDup(cells) && NoneIn(ring, cells)
      requires forall c | c in cells :: c.colour != dark
      modifies `ring, `w, ring, cells
      ensures |cells| != 1 ==> RingValid()
      ensures |cells| == 1 ==> bottom.ccw.ccw == bottom.ccw
      ensures ring == old(ring)[..old(w)] + cells + old(ring)[old(w)..] && w == old(w) + |cells|
      ensures Within(ring, old(ring) + cells)
    {
      SpliceLinks(cells);
      ghost var t := SplicedRing(ring, w, cells);
      Regrow(|cells|, t);
    }

    /** The ghost view of the ring takes in the new cells. */
    ghost method Regrow(size: nat, t: seq<Cell>)
      requires NoDup(t) && (size != 1 ==> Linked(t)) && Pointers() && Colours() && 1 <= w
      requires |t| == |ring| + size && t[0] == ring[0]
      requires forall i | w + size <= i < |t| :: t[i] == ring[i - size]
      modifies `ring, `w
      ensures ring == t && w == old(w) + size
      ensures size != 1 ==> RingValid()
    {
      forall i | w + size <= i < |t|
        ensures t[i].colour == if i < w + size + e then !dark else dark
      {
        assert t[i] == ring[i - size];
      }
      ring, w := t, w + size;
    }

    /** The loop of the splice. */
    method SpliceLinks(cells: seq<Cell>)
      requires NoDup(ring) && Linked(ring) && NoDup(cells) && NoneIn(ring, cells)
      requires 1 <= w < |ring| && bottom == ring[w]
      modifies ring, cells
      ensures forall c | c in ring || c in cells :: c.colour == old(c.colour)
      ensures |cells| != 1 ==> SplicedLinks(ring, w, cells, |cells|)
      ensures |cells| == 1 ==> bottom.ccw.ccw == bottom.ccw
    {
      assert bottom.ccw == ring[Pred(w, |ring|)];
      for k := 0 to |cells|
        invariant forall c | c in ring || c in cells :: c.colour == old(c.colour)
        invariant k < |cells| ==> bottom.ccw == ring[w - 1]
        invariant |cells| != 1 ==> SplicedLinks(ring, w, cells, k)
        invariant |cells| == 1 && k == 1 ==> bottom.ccw.ccw == bottom.ccw
      {
        SpliceCell(cells, k);
      }
    }

    /** One turn of that loop. */
    method SpliceCell(cells: seq<Cell>, k: nat)
      requires NoDup(ring) && NoDup(cells) && NoneIn(ring, cells) && k < |cells|
      requires 1 <= w < |ring| && bottom == ring[w]
      requires bottom.ccw == ring[w - 1]
      requires |cells| != 1 ==> SplicedLinks(ring, w, cells, k)
      modifies ring, cells
      ensures k + 1 < |cells| ==> bottom.ccw == ring[w - 1]
      ensures forall c | c in ring || c in cells :: c.colour == old(c.colour)
      ensures |cells| != 1 ==> SplicedLinks(ring, w, cells, k + 1)
      ensures |cells| == 1 ==> bottom.ccw.ccw == bottom.ccw
    {
      var p := cells[k];
      if k == |cells| - 1 {
        bottom.ccw := p;
      }
      if k == 0 {
        bottom.ccw.cw := p;
      }
      p.cw := if k == |cells| - 1 then bottom else cells[k + 1];
      p.ccw := if k == 0 then bottom.ccw else cells[k - 1];
    }

    /** `mk_vector` asks for as many cells as the vector is long. */
    method CountVector(len: nat)
      modifies `request
      ensures request == old(request) + len && Counters() == G.After(old(Counters()), G.VectorMade(len))
    {
      request := request + len;
    }

    /** `treadmill_flip`, from the moment the scanner has finished: the arcs are exchanged, memory
        is added if the cycle was a busy one, and the roots are marked. */
    method Flip(roots: seq<Cell>, ghost a: Arcs<Cell>, ghost spare: Cell) returns (ghost added: seq<Cell>)
      requires Represents(a) && free == bottom && scan == top
      requires (forall p | p in roots :: p in a.black) && spare in a.black && spare !in roots
      requires 2 * (inserts + 20000) > total ==> request != 1
      modifies this, ring
      ensures Represents(ShadeAll(Grow(TreadmillArcs.Flip(a), added), roots))
      ensures fresh(added) && |added| ==
        old(if 2 * (inserts + 20000) > total then (if request >= 0 then request else 100000) else 0)
      ensures dark != old(dark) && inserts == 0 && request == -1 && total == old(total) + |added|
      ensures Counters() == G.After(old(Counters()), G.Flip)
      ensures forall p | p in roots :: p.colour == dark
      ensures old(total) == |a.Ring()| ==> total == |ShadeAll(Grow(TreadmillArcs.Flip(a), added), roots).Ring()|
    {
      added := ExchangeAndGrow(a);
      FinishFlip(roots, Grow(TreadmillArcs.Flip(a), added), spare);
      FlipSize(a, added, roots);
    }

    method ExchangeAndGrow(ghost a: Arcs<Cell>) returns (ghost added: seq<Cell>)
      requires Represents(a) && free == bottom && scan == top && a.black != []
      requires 2 * (inserts + 20000) > total ==> request != 1
      modifies `bottom, `top, `scan, `dark, `total, `ring, `w, `e, `g, ring
      ensures Represents(Grow(TreadmillArcs.Flip(a), added)) && Within(ring, old(ring) + added)
      ensures fresh(added) && |added| ==
        old(if 2 * (inserts + 20000) > total then (if request >= 0 then request else 100000) else 0)
      ensures dark != old(dark) && total == old(total) + |added|
    {
      Exchange(a);
      added := GrowIfBusy(TreadmillArcs.Flip(a));
    }

    method FinishFlip(roots: seq<Cell>, ghost a: Arcs<Cell>, ghost spare: Cell)
      requires Represents(a) && (forall p | p in roots :: p in a.ecru)
      requires spare in a.ecru && spare !in roots
      modifies `free, `bottom, `top, `scan, `inserts, `request, `ring, `e, `g, ring
      ensures Represents(ShadeAll(a, roots)) && inserts == 0 && request == -1
      ensures forall p | p in roots :: p.colour == dark
    {
      request := -1;
      EcruLive(a, roots);
      MarkRoots(roots, a, spare);
      NoInsertsYet(ShadeAll(a, roots));
    }

    method NoInsertsYet(ghost a: Arcs<Cell>)
      requires Represents(a)
      modifies `inserts
      ensures Represents(a) && inserts == 0
    {
      inserts := 0;
    }

    method GrowIfBusy(ghost a: Arcs<Cell>) returns (ghost added: seq<Cell>)
      requires Represents(a) && free != bottom
      requires 2 * (inserts + 20000) > total ==> request != 1
      modifies `total, `ring, `w, ring
      ensures Represents(Grow(a, added)) && Within(ring, old(ring) + added)
      ensures fresh(added) && |added| ==
        old(if 2 * (inserts + 20000) > total then (if request >= 0 then request else 100000) else 0)
      ensures total == old(total) + |added|
    {
      added := [];
      assert a.white + [] == a.white;
      if inserts > total / 2 - 20000 {
        var size: nat := if request >= 0 then request else 100000;
        total := total + size;
        added := Splice(size, a);
      }
    }

    /** `get_cell`: it flips only when it finds no free cell. */
    method GetCell(roots: seq<Cell>, ghost a: Arcs<Cell>, ghost spare: Cell)
      returns (x: Cell, ghost added: seq<Cell>)
      requires Represents(a)
      requires free == bottom ==>
        && scan == top && (forall p | p in roots :: p in a.black) && spare in a.black && spare !in roots
        && (2 * (inserts + 20000) > total ==> request != 1)
      modifies this, ring
      ensures var b := if old(free == bottom) then ShadeAll(Grow(TreadmillArcs.Flip(a), added), roots) else a;
              b.white != [] && x == b.white[0] && Represents(Allocate(b))
      ensures total == old(total) + |added|
      ensures Counters() == if old(free == bottom) then G.After(old(Counters()), G.Flip) else old(Counters())
    {
      ghost var b, w0 := a, w;
      added := [];
      if free == bottom {
        added := Flip(roots, a, spare);
        b := ShadeAll(Grow(TreadmillArcs.Flip(a), added), roots);
        ShadeAllWhite(Grow(TreadmillArcs.Flip(a), added), roots);
        assert b.white[0] == a.ecru[0] == old(ring)[w0];
      }
      x := GetFree(b);
    }
  }

  lemma {:induction false} ShadeAllWhite(a: Arcs<Cell>, roots: seq<Cell>)
    ensures ShadeAll(a, roots).white == a.white
  {
    if roots != [] {
      ShadeAllWhite(a, roots[..|roots| - 1]);
    }
  }

  ghost predicate NoneIn(r: seq<Cell>, cells: seq<Cell>) {
    forall i, j | 0 <= i < |r| && 0 <= j < |cells| :: r[i] != cells[j]
  }

  /** The links round `r` when `k` of the `cells` have been spliced in between positions
      `w - 1` and `w`. */
  ghost predicate SplicedLinks(r: seq<Cell>, w: nat, cells: seq<Cell>, k: nat)
    requires 1 <= w < |r| && k <= |cells|
    reads r, cells
  {
    var size := |cells|;
    && (forall i {:trigger r[i].cw} | 0 <= i < |r| ::
          r[i].cw == (if i == w - 1 && 0 < k then cells[0] else r[Succ(i, |r|)]))
    && (forall i {:trigger r[i].ccw} | 0 <= i < |r| ::
          r[i].ccw == (if i == w && 0 < k == size then cells[size - 1] else r[Pred(i, |r|)]))
    && (forall j {:trigger cells[j].cw} | 0 <= j < k ::
          cells[j].cw == (if j == size - 1 then r[w] else cells[j + 1]))
    && (forall j {:trigger cells[j].ccw} | 0 <= j < k ::
          cells[j].ccw == (if j == 0 then r[w - 1] else cells[j - 1]))
  }

  lemma SplicedAt(r: seq<Cell>, w: nat, cells: seq<Cell>, t: seq<Cell>, i: nat)
    requires 1 <= w < |r| && t == r[..w] + cells + r[w..] && i < |t|
    ensures t[i] == if i < w then r[i] else if i < w + |cells| then cells[i - w] else r[i - |cells|]
  {
  }

  /** The ring with the new cells in it. */
  lemma SplicedRing(r: seq<Cell>, w: nat, cells: seq<Cell>) returns (t: seq<Cell>)
    requires 1 <= w < |r| && NoDup(r) && NoDup(cells) && NoneIn(r, cells)
    ensures t == r[..w] + cells + r[w..]
    ensures |t| == |r| + |cells| && NoDup(t) && t[0] == r[0]
    ensures forall i | w + |cells| <= i < |t| :: t[i] == r[i - |cells|]
    ensures SplicedLinks(r, w, cells, |cells|) ==> Linked(t)
    ensures Within(t, r + cells)
  {
    t := r[..w] + cells + r[w..];
    forall i, j | 0 <= i < j < |t|
      ensures t[i] != t[j]
    {
      SplicedAt(r, w, cells, t, i);
      SplicedAt(r, w, cells, t, j);
    }
    if SplicedLinks(r, w, cells, |cells|) {
      SplicedLinked(r, w, cells, t);
    }
  }

  lemma SplicedLinked(r: seq<Cell>, w: nat, cells: seq<Cell>, t: seq<Cell>)
    requires 1 <= w < |r| && SplicedLinks(r, w, cells, |cells|)
    requires t == r[..w] + cells + r[w..]
    ensures Linked(t)
  {
    forall i {:trigger t[i].cw} {:trigger t[i].ccw} | 0 <= i < |t|
      ensures t[i].cw == t[Succ(i, |t|)] && t[i].ccw == t[Pred(i, |t|)]
    {
      SplicedAt(r, w, cells, t, i);
      SplicedAt(r, w, cells, t, Succ(i, |t|));
      SplicedAt(r, w, cells, t, Pred(i, |t|));
    }
  }

  lemma RotatedAt(r: seq<Cell>, i: nat)
    requires 2 <= |r| && i < |r|
    ensures var s := r[1..] + [r[0]];
            && s[i] == r[Succ(i, |r|)]
            && s[Succ(i, |r|)] == r[Succ(Succ(i, |r|), |r|)]
            && s[Pred(i, |r|)] == r[Pred(Succ(i, |r|), |r|)]
  {
  }

  lemma RotateNeighbours(r: seq<Cell>)
    requires NoDup(r) && 2 <= |r|
    ensures Linked(r) ==> Linked(r[1..] + [r[0]])
    ensures NoDup(r[1..] + [r[0]])
  {
    var s := r[1..] + [r[0]];
    forall i, j | 0 <= i < j < |s| ensures s[i] != s[j] {
      RotatedAt(r, i);
      RotatedAt(r, j);
    }
    if Linked(r) {
      forall i {:trigger s[i].cw} {:trigger s[i].ccw} | 0 <= i < |s|
        ensures s[i].cw == s[Succ(i, |s|)] && s[i].ccw == s[Pred(i, |s|)]
      {
        RotatedAt(r, i);
      }
    }
  }

  /** `get_cell` reads the link of the free cell and writes `treadmill_free` without the mutex.
      `r` is the ring when it reads, `t` the ring after an insertion by the scanner of the ecru
      cell at `k`.  The link it has read is still the right one unless a single free cell is left
      and the scanner has taken away its neighbour, the cell at `bottom`. */
  lemma StaleFreeLink(r: seq<Cell>, w: nat, e: nat, k: nat, t: seq<Cell>)
    requires NoDup(r) && 1 <= w <= k < w + e <= |r| && 2 <= e && MovedTo(r, k, w + e, t)
    ensures r[Succ(0, |r|)] == t[Succ(0, |t|)] <==> !(w == 1 && k == w)
  {
    assert t[1] == r[Origin(k, w + e, 1)];
  }
}
