/** The treadmill as four arcs.

  Walking clockwise from `treadmill_free`, the ring of cells is cut into white (free) cells,
  ecru cells (`treadmill_bottom` to `treadmill_top`), grey cells (up to `treadmill_scan`) and
  black cells.  This module names the moves the collector makes on those four sequences.
  `TreadmillRing` shows that the pointer code makes exactly these moves, and `TreadmillRun`
  proves what they mean for the program that runs beside the collector.
 */
module TreadmillArcs {

  datatype Arcs<T(==)> = Arcs(white: seq<T>, ecru: seq<T>, grey: seq<T>, black: seq<T>) {

    /** The whole ring, clockwise from `treadmill_free`. */
    function Ring(): seq<T> {
      white + ecru + grey + black
    }

    /** How often a cell occurs on the ring. */
    ghost function Count(c: T): nat {
      multiset(white)[c] + multiset(ecru)[c] + multiset(grey)[c] + multiset(black)[c]
    }

    ghost predicate Distinct() {
      forall c | c in Ring() :: Count(c) <= 1
    }

    predicate Live(c: T) {
      c in ecru || c in grey || c in black
    }

    predicate Dark(c: T) {
      c in grey || c in black
    }
  }

  function Without<T(==)>(s: seq<T>, p: T): (r: seq<T>)
    ensures |r| == if p in s then |s| - 1 else |s|
  {
    if s == [] then []
    else if s[0] == p then s[1..]
    else [s[0]] + Without(s[1..], p)
  }

  lemma {:induction false} WithoutOne<T>(s: seq<T>, p: T)
    ensures multiset(Without(s, p)) == multiset(s) - multiset{p}
  {
    if s != [] {
      assert s == [s[0]] + s[1..];
      if s[0] != p {
        WithoutOne(s[1..], p);
      }
    }
  }

  /** `insert_treadmill`: an ecru cell becomes the grey cell next to `top`. */
  function Shade<T(==)>(a: Arcs<T>, p: T): Arcs<T> {
    if p in a.ecru then a.(ecru := Without(a.ecru, p), grey := [p] + a.grey) else a
  }

  /** `treadmill_mark_roots`: one insertion after the other. */
  function ShadeAll<T(==)>(a: Arcs<T>, roots: seq<T>): Arcs<T> {
    if roots == [] then a
    else Shade(ShadeAll(a, roots[..|roots| - 1]), roots[|roots| - 1])
  }

  /** `get_cell`: the first white cell becomes the last black one. */
  function Allocate<T(==)>(a: Arcs<T>): Arcs<T>
    requires a.white != []
  {
    a.(white := a.white[1..], black := a.black + [a.white[0]])
  }

  /** The scanner moves `scan` one cell towards `top`. */
  function Advance<T(==)>(a: Arcs<T>): Arcs<T>
    requires a.grey != []
  {
    a.(grey := a.grey[..|a.grey| - 1], black := [a.grey[|a.grey| - 1]] + a.black)
  }

  /** `treadmill_flip`: what was ecru is free, what was black is ecru. */
  function Flip<T(==)>(a: Arcs<T>): Arcs<T> {
    Arcs(a.ecru, a.black, [], [])
  }

  /** New memory joins the free cells, next to `bottom`. */
  function Grow<T(==)>(a: Arcs<T>, added: seq<T>): Arcs<T> {
    a.(white := a.white + added)
  }

  lemma {:induction false} WithoutAt<T>(s: seq<T>, k: nat)
    requires k < |s| && s[k] !in s[..k]
    ensures Without(s, s[k]) == s[..k] + s[k + 1..]
  {
    if k > 0 {
      var t := s[1..];
      assert s[0] == s[..k][0] != s[k];
      assert t[..k - 1] == s[..k][1..];
      WithoutAt(t, k - 1);
      calc {
        Without(s, s[k]);
        [s[0]] + (t[..k - 1] + t[k..]);
        ([s[0]] + t[..k - 1]) + t[k..];
        s[..k] + s[k + 1..];
      }
    }
  }

  /** Shading, allocating and scanning move one cell and keep all the others:
      no cell is lost, copied or invented. */
  lemma {:induction false} ShadeConserves<T>(a: Arcs<T>, p: T)
    ensures forall c :: Shade(a, p).Count(c) == a.Count(c)
    ensures a.Distinct() ==> forall c :: c in Shade(a, p).ecru <==> c in a.ecru && c != p
    ensures forall c :: c in Shade(a, p).grey <==> c in a.grey || (c == p && p in a.ecru)
    ensures Shade(a, p).black == a.black && Shade(a, p).white == a.white
    ensures |Shade(a, p).Ring()| == |a.Ring()|
  {
    WithoutOne(a.ecru, p);
    assert a.Distinct() && p in a.ecru ==> multiset(a.ecru)[p] == 1 by {
      assert p in a.ecru ==> p in a.Ring();
      assert a.Count(p) >= multiset(a.ecru)[p];
    }
    forall c
      ensures a.Distinct() ==> (c in Shade(a, p).ecru <==> c in a.ecru && c != p)
    {
      assert c in Shade(a, p).ecru <==> multiset(Shade(a, p).ecru)[c] > 0;
      assert c in a.ecru <==> multiset(a.ecru)[c] > 0;
    }
  }

  /** What marking does to one cell: a root that was ecru is grey, and any other cell is where it was. */
  ghost predicate MarkedAs<T>(a: Arcs<T>, b: Arcs<T>, isRoot: bool, c: T) {
    && b.Count(c) == a.Count(c)
    && (c in b.grey <==> c in a.grey || (c in a.ecru && isRoot))
    && (c in b.ecru ==> c in a.ecru)
    && (c in a.ecru ==> c in b.ecru || isRoot)
    && (a.Distinct() && isRoot ==> c !in b.ecru)
  }

  lemma MarkOneMore<T>(a: Arcs<T>, b: Arcs<T>, p: T, isRoot: bool, c: T)
    requires MarkedAs(a, b, isRoot, c) && (a.Distinct() ==> b.Distinct())
    ensures MarkedAs(a, Shade(b, p), isRoot || c == p, c)
  {
    ShadeConserves(b, p);
    Remains(b.ecru, p, c);
  }

  /** `treadmill_mark_roots` as a whole: for every cell, and with one grey cell more for every root
      that was found ecru. */
  lemma {:induction false} ShadeAllMarks<T>(a: Arcs<T>, roots: seq<T>)
    ensures forall c :: MarkedAs(a, ShadeAll(a, roots), c in roots, c)
    ensures ShadeAll(a, roots).white == a.white && ShadeAll(a, roots).black == a.black
    ensures |ShadeAll(a, roots).grey| + |ShadeAll(a, roots).ecru| == |a.grey| + |a.ecru|
    decreases |roots|
  {
    if roots != [] {
      var n := |roots| - 1;
      var b, p := ShadeAll(a, roots[..n]), roots[n];
      ShadeAllMarks(a, roots[..n]);
      assert a.Distinct() ==> b.Distinct() by {
        forall c ensures b.Count(c) == a.Count(c) { assert MarkedAs(a, b, c in roots[..n], c); }
        SameCells(a, b);
      }
      forall c ensures MarkedAs(a, Shade(b, p), c in roots, c) {
        assert roots == roots[..n] + [p];
        MarkOneMore(a, b, p, c in roots[..n], c);
      }
    }
  }

  lemma Remains<T>(s: seq<T>, p: T, c: T)
    ensures c in Without(s, p) ==> c in s
    ensures c in s ==> c in Without(s, p) || c == p
  {
    WithoutOne(s, p);
    assert c in Without(s, p) <==> multiset(Without(s, p))[c] > 0;
    assert c in s <==> multiset(s)[c] > 0;
  }

  lemma {:induction false} AllocateConserves<T>(a: Arcs<T>)
    requires a.white != []
    ensures forall c :: Allocate(a).Count(c) == a.Count(c)
    ensures a.Distinct() ==> forall c :: c in Allocate(a).white <==> c in a.white && c != a.white[0]
    ensures forall c :: c in Allocate(a).black <==> c in a.black || c == a.white[0]
  {
    assert a.white == [a.white[0]] + a.white[1..];
    assert a.Distinct() ==> a.Count(a.white[0]) <= 1;
  }

  lemma {:induction false} AdvanceConserves<T>(a: Arcs<T>)
    requires a.grey != []
    ensures forall c :: Advance(a).Count(c) == a.Count(c)
    ensures var g := a.grey[|a.grey| - 1];
            && (a.Distinct() ==> forall c :: c in Advance(a).grey <==> c in a.grey && c != g)
            && (forall c :: c in Advance(a).black <==> c in a.black || c == g)
  {
    var n := |a.grey| - 1;
    assert a.grey == a.grey[..n] + [a.grey[n]];
    assert a.Distinct() ==> a.Count(a.grey[n]) <= 1;
  }

  /** The flip turns exactly the old ecru cells into free cells; with the white and grey arcs
      empty, as the flip finds them, nothing is lost. */
  lemma FlipConserves<T>(a: Arcs<T>)
    requires a.white == [] && a.grey == []
    ensures forall c :: Flip(a).Count(c) == a.Count(c)
    ensures forall c :: c in Flip(a).white <==> c in a.ecru
  {
  }

  /** How many cells there are after a flip, with growth and marked roots. */
  lemma FlipSize<T>(a: Arcs<T>, added: seq<T>, roots: seq<T>)
    requires a.white == [] && a.grey == []
    ensures |ShadeAll(Grow(Flip(a), added), roots).Ring()| == |a.Ring()| + |added|
  {
    ShadeAllMarks(Grow(Flip(a), added), roots);
  }

  /** Growth adds exactly the spliced cells. */
  lemma GrowConserves<T>(a: Arcs<T>, added: seq<T>)
    ensures forall c :: Grow(a, added).Count(c) == a.Count(c) + multiset(added)[c]
    ensures |Grow(a, added).Ring()| == |a.Ring()| + |added|
  {
  }

  lemma Apart<T>(a: Arcs<T>, c: T)
    requires a.Distinct()
    ensures c in a.ecru ==> c !in a.grey && c !in a.black && c !in a.white
    ensures c in a.grey ==> c !in a.black && c !in a.white
    ensures c in a.black ==> c !in a.white
  {
    assert a.Count(c) <= 1;
  }

  lemma SameCells<T>(a: Arcs<T>, b: Arcs<T>)
    requires forall c :: b.Count(c) == a.Count(c)
    ensures a.Distinct() ==> b.Distinct()
    ensures forall c :: (c in b.white || b.Live(c)) <==> (c in a.white || a.Live(c))
  {
    forall c
      ensures (c in b.white || b.Live(c)) <==> b.Count(c) > 0
      ensures (c in a.white || a.Live(c)) <==> a.Count(c) > 0
    {
    }
    if a.Distinct() {
      forall c | c in b.Ring()
        ensures b.Count(c) <= 1
      {
        assert a.Count(c) > 0;
        assert c in a.Ring();
      }
    }
  }
}
