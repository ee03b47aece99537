/** Names in frames: what a name stands for, and what binding, definition and assignment do to that.

  A frame is given here by what its names stand for, a name standing for the value in the first slot of
  that name; lists are sequences.
 */
module SchemeFrames {
  import opened Registers
  import opened SchemeMachine

  /** The list of these values, and `tail` after them. */
  function ListOf(vs: seq<Value>, tail: Value): Value {
    if vs == [] then tail else Pair(vs[0], ListOf(vs[1..], tail))
  }

  type Slots = seq<(Value, Value)>

  predicate FirstAt(slots: Slots, name: Value, i: nat) {
    i < |slots| && slots[i].0 == name && forall j | 0 <= j < i :: slots[j].0 != name
  }

  predicate Names(slots: Slots, name: Value) {
    exists i | 0 <= i < |slots| :: slots[i].0 == name
  }

  /** The first slot of this name holds this value. */
  predicate Holds(slots: Slots, name: Value, v: Value) {
    exists i | 0 <= i < |slots| :: FirstAt(slots, name, i) && slots[i].1 == v
  }

  predicate IsFrame(s: Store, e: nat) {
    0 < e <= |s|
  }

  /** Frame `f` is where the name is found from environment `e` on: the first that has it. */
  predicate FoundIn(s: Store, e: nat, name: Value, f: nat)
    decreases e
  {
    && IsFrame(s, e)
    && if Names(s[e - 1].slots, name) then f == e
       else s[e - 1].parent < e && FoundIn(s, s[e - 1].parent, name, f)
  }

  /** What the name stands for in the environment. */
  predicate Bound(s: Store, e: nat, name: Value, v: Value) {
    exists f | 0 < f <= |s| :: FoundIn(s, e, name, f) && Holds(s[f - 1].slots, name, v)
  }

  lemma {:induction false} FirstSlot(slots: Slots, name: Value)
    ensures SlotIn(slots, name) < |slots| ==> FirstAt(slots, name, SlotIn(slots, name))
    ensures SlotIn(slots, name) < |slots| <==> Names(slots, name)
    decreases |slots|
  {
    if slots != [] && slots[0].0 != name {
      FirstSlot(slots[1..], name);
      var i := SlotIn(slots[1..], name);
      forall j | 0 <= j < |slots| && j < i + 1 && FirstAt(slots[1..], name, i) ensures slots[j].0 != name {
        assert j > 0 ==> slots[j] == slots[1..][j - 1];
      }
      if Names(slots, name) {
        var j :| 0 <= j < |slots| && slots[j].0 == name;
        assert slots[1..][j - 1].0 == name;
      }
    }
  }

  /** `find_slot_in_env` finds the innermost frame with the name, and the first slot in it: in the
      given frame alone, or in all from there outwards. */
  lemma {:induction false} FindsFirst(s: Store, e: nat, name: Value)
    ensures var at := FindSlot(s, e, name, true);
            0 < at.0 ==> FoundIn(s, e, name, at.0) && FirstAt(s[at.0 - 1].slots, name, at.1)
    ensures forall f: nat :: FoundIn(s, e, name, f) ==> f == FindSlot(s, e, name, true).0
    ensures FindSlot(s, e, name, false)
         == if IsFrame(s, e) && Names(s[e - 1].slots, name) then FindSlot(s, e, name, true) else (0, 0)
    decreases e
  {
    if IsFrame(s, e) {
      FirstSlot(s[e - 1].slots, name);
      if !Names(s[e - 1].slots, name) && s[e - 1].parent < e {
        FindsFirst(s, s[e - 1].parent, name);
      }
    }
  }

  /** A bound name is found, with its value. */
  lemma BoundIsFound(s: Store, e: nat, name: Value, v: Value)
    requires Bound(s, e, name, v)
    ensures var at := FindSlot(s, e, name, true);
            0 < at.0 && s[at.0 - 1].slots[at.1].1 == v
  {
    var f :| 0 < f <= |s| && FoundIn(s, e, name, f) && Holds(s[f - 1].slots, name, v);
    FindsFirst(s, e, name);
    var i :| 0 <= i < |s[f - 1].slots| && FirstAt(s[f - 1].slots, name, i) && s[f - 1].slots[i].1 == v;
    OneFirst(s[f - 1].slots, name, i, FindSlot(s, e, name, true).1);
  }

  lemma OneFirst(slots: Slots, name: Value, i: nat, k: nat)
    requires FirstAt(slots, name, i) && FirstAt(slots, name, k)
    ensures i == k
  {
  }

  // ---------------------------------------------------------------------------
  // Changing what a name stands for
  // ---------------------------------------------------------------------------

  ghost predicate SameFor(a: Slots, b: Slots, x: Value) {
    forall w :: Holds(a, x, w) <==> Holds(b, x, w)
  }

  ghost predicate SameForOthers(a: Slots, b: Slots, name: Value) {
    forall x | x != name :: SameFor(a, b, x)
  }

  /** In frame `e` the name stands for the value now; all else is as it was. */
  ghost predicate Changed(s: Store, e: nat, name: Value, v: Value, s1: Store) {
    && IsFrame(s, e) && |s1| == |s|
    && (forall f | 0 <= f < |s| && f != e - 1 :: s1[f] == s[f])
    && s1[e - 1].parent == s[e - 1].parent
    && Holds(s1[e - 1].slots, name, v)
    && SameForOthers(s1[e - 1].slots, s[e - 1].slots, name)
  }

  /** A new slot goes in front of the others ... */
  lemma NewSlotChanges(s: Store, e: nat, name: Value, v: Value)
    requires IsFrame(s, e)
    ensures Changed(s, e, name, v, NewSlot(s, e, name, v))
  {
    var a, b := s[e - 1].slots, [(name, v)] + s[e - 1].slots;
    assert FirstAt(b, name, 0);
    forall x | x != name ensures SameFor(b, a, x) {
      forall w ensures Holds(b, x, w) <==> Holds(a, x, w) {
        if i :| 0 <= i < |b| && FirstAt(b, x, i) && b[i].1 == w {
          assert a[i - 1] == b[i] && forall j | 0 <= j < i - 1 :: a[j] == b[j + 1];
          assert FirstAt(a, x, i - 1);
        }
        if i :| 0 <= i < |a| && FirstAt(a, x, i) && a[i].1 == w {
          assert b[i + 1] == a[i] && forall j | 0 < j < i + 1 :: b[j] == a[j - 1];
          assert FirstAt(b, x, i + 1);
        }
      }
    }
  }

  /** ... and an old one keeps its name and its place. */
  lemma SetSlotChanges(s: Store, e: nat, name: Value, i: nat, v: Value)
    requires IsFrame(s, e) && FirstAt(s[e - 1].slots, name, i)
    ensures Changed(s, e, name, v, SetSlot(s, (e, i), v))
  {
    var a := s[e - 1].slots;
    var b := a[i := (a[i].0, v)];
    assert forall j | 0 <= j < |a| :: a[j].0 == b[j].0;
    assert FirstAt(b, name, i);
    forall x | x != name ensures SameFor(b, a, x) {
      forall w ensures Holds(b, x, w) <==> Holds(a, x, w) {
        if k :| 0 <= k < |b| && FirstAt(b, x, k) && b[k].1 == w {
          assert FirstAt(a, x, k);
        }
        if k :| 0 <= k < |a| && FirstAt(a, x, k) && a[k].1 == w {
          assert FirstAt(b, x, k);
        }
      }
    }
  }

  /** `define` changes what the name stands for in the innermost frame, whether it is there or not. */
  lemma DefineChanges(s: Store, e: nat, name: Value, v: Value)
    requires IsFrame(s, e)
    ensures Changed(s, e, name, v, Define(s, e, name, v))
  {
    FindsFirst(s, e, name);
    var at := FindSlot(s, e, name, false);
    if at.0 > 0 {
      SetSlotChanges(s, e, name, at.1, v);
    } else {
      NewSlotChanges(s, e, name, v);
    }
  }

  // ---------------------------------------------------------------------------
  // Frames for calls and bindings
  // ---------------------------------------------------------------------------

  /** The slots of these names, the last in front, before `others`. */
  predicate SlotsFor(slots: Slots, names: seq<Value>, vs: seq<Value>, others: Slots) {
    && |names| <= |vs| && |slots| == |names| + |others|
    && (forall i {:trigger names[i]} | 0 <= i < |names| :: slots[|names| - 1 - i] == (names[i], vs[i]))
    && forall i {:trigger others[i]} | 0 <= i < |others| :: slots[|names| + i] == others[i]
  }

  predicate Distinct(names: seq<Value>) {
    forall i, j | 0 <= i < j < |names| :: names[i] != names[j]
  }

  /** With distinct names, every name stands for its own value. */
  lemma SlotsHold(slots: Slots, names: seq<Value>, vs: seq<Value>, others: Slots, i: nat)
    requires SlotsFor(slots, names, vs, others) && Distinct(names) && i < |names|
    ensures Holds(slots, names[i], vs[i])
  {
    var k := |names| - 1 - i;
    forall j | 0 <= j < k ensures slots[j].0 != names[i] {
      assert slots[|names| - 1 - (|names| - 1 - j)] == (names[|names| - 1 - j], vs[|names| - 1 - j]);
    }
    assert FirstAt(slots, names[i], k);
  }

  /** Frame `e` has other slots now; all else is as it was. */
  predicate Filled(s: Store, e: nat, slots: Slots, s1: Store) {
    && IsFrame(s, e) && |s1| == |s|
    && (forall f | 0 <= f < |s| && f != e - 1 :: s1[f] == s[f])
    && s1[e - 1] == EnvFrame(slots, s[e - 1].parent)
  }

  /** The slots that a call makes: in front the one for the rest of the arguments, if there is one. */
  predicate CallSlots(slots: Slots, names: seq<Value>, rest: Value, vs: seq<Value>, others: Slots) {
    if rest.Sym? then
      && |names| <= |vs| && slots != [] && slots[0] == (rest, ListOf(vs[|names|..], Nil))
      && SlotsFor(slots[1..], names, vs, others)
    else SlotsFor(slots, names, vs, others)
  }

  predicate CallFrame(s: Store, e: nat, names: seq<Value>, rest: Value, vs: seq<Value>, s1: Store) {
    && IsFrame(s, e) && |s1| == |s| && Filled(s, e, s1[e - 1].slots, s1)
    && CallSlots(s1[e - 1].slots, names, rest, vs, s[e - 1].slots)
  }

  /** A call with enough arguments: every parameter gets its own, and a parameter after the dot the
      list of all that remain.  With too few it is an error, and surplus ones are dropped. */
  lemma {:induction false} ParamsBound(s: Store, e: nat, names: seq<Value>, rest: Value, vs: seq<Value>)
    requires IsFrame(s, e) && (rest == Nil || rest.Sym?)
    ensures var r := BindParams(s, e, ListOf(names, rest), ListOf(vs, Nil));
            if |names| <= |vs| then r.Got? && CallFrame(s, e, names, rest, vs, r.value) else r == Fault
    decreases |names|
  {
    if names == [] {
      NoParams(s, e, rest, vs);
    } else if vs != [] {
      var s0 := NewSlot(s, e, names[0], vs[0]);
      ParamsBound(s0, e, names[1..], rest, vs[1..]);
      if |names| <= |vs| {
        var s1 := BindParams(s0, e, ListOf(names[1..], rest), ListOf(vs[1..], Nil)).value;
        OneMoreParam(s1[e - 1].slots, names, rest, vs, s[e - 1].slots);
      }
    }
  }

  lemma NoParams(s: Store, e: nat, rest: Value, vs: seq<Value>)
    requires IsFrame(s, e) && (rest == Nil || rest.Sym?)
    ensures var r := BindParams(s, e, rest, ListOf(vs, Nil)); r.Got? && CallFrame(s, e, [], rest, vs, r.value)
  {
    assert vs[0..] == vs;
    assert ([(rest, ListOf(vs, Nil))] + s[e - 1].slots)[1..] == s[e - 1].slots;
  }

  lemma SlotsOnce(a: Slots, b: Slots, names: seq<Value>, vs: seq<Value>, others: Slots)
    requires SlotsFor(a, names, vs, others) && SlotsFor(b, names, vs, others)
    ensures a == b
  {
    var n := |names|;
    forall k | 0 <= k < |a| ensures a[k] == b[k] {
      if k < n {
        assert names[n - 1 - k] == names[n - 1 - k];
        assert a[n - 1 - (n - 1 - k)] == b[n - 1 - (n - 1 - k)];
      } else {
        assert others[k - n] == others[k - n];
        assert a[n + (k - n)] == b[n + (k - n)];
      }
    }
  }

  /** There is one such frame. */
  lemma OneCallFrame(s: Store, e: nat, names: seq<Value>, rest: Value, vs: seq<Value>, a: Store, b: Store)
    requires CallFrame(s, e, names, rest, vs, a) && CallFrame(s, e, names, rest, vs, b)
    ensures a == b
  {
    var x, y := a[e - 1].slots, b[e - 1].slots;
    if rest.Sym? {
      SlotsOnce(x[1..], y[1..], names, vs, s[e - 1].slots);
      assert x == [x[0]] + x[1..] && y == [y[0]] + y[1..];
    } else {
      SlotsOnce(x, y, names, vs, s[e - 1].slots);
    }
    forall f | 0 <= f < |a| ensures a[f] == b[f] {}
  }

  lemma OneMoreParam(slots: Slots, names: seq<Value>, rest: Value, vs: seq<Value>, others: Slots)
    requires names != [] && |names| <= |vs|
    requires CallSlots(slots, names[1..], rest, vs[1..], [(names[0], vs[0])] + others)
    ensures CallSlots(slots, names, rest, vs, others)
  {
    assert vs[1..][|names[1..]|..] == vs[|names|..];
    OneMoreSlot(if rest.Sym? then slots[1..] else slots, names, vs, others);
  }

  lemma OneMoreSlot(slots: Slots, names: seq<Value>, vs: seq<Value>, others: Slots)
    requires names != [] && |names| <= |vs|
    requires SlotsFor(slots, names[1..], vs[1..], [(names[0], vs[0])] + others)
    ensures SlotsFor(slots, names, vs, others)
  {
    var n, more := |names|, [(names[0], vs[0])] + others;
    forall i {:trigger names[i]} | 0 <= i < n ensures slots[n - 1 - i] == (names[i], vs[i]) {
      if i == 0 {
        assert more[0] == (names[0], vs[0]);
      } else {
        assert names[1..][i - 1] == names[i] && vs[1..][i - 1] == vs[i];
      }
    }
    forall i {:trigger others[i]} | 0 <= i < |others| ensures slots[n + i] == others[i] {
      assert more[i + 1] == others[i];
    }
  }

  /** The list of bindings `((name expr) ...)`. */
  function Bindings(names: seq<Value>, cs: seq<Value>): Value
    requires |names| == |cs|
  {
    if names == [] then Nil
    else Pair(Pair(names[0], Pair(cs[0], Nil)), Bindings(names[1..], cs[1..]))
  }

  /** `let` and `letrec` make a slot for every binding. */
  lemma {:induction false} LetBound(s: Store, e: nat, names: seq<Value>, cs: seq<Value>, vs: seq<Value>)
    requires IsFrame(s, e) && |names| == |cs| == |vs|
    ensures BindLet(s, e, Bindings(names, cs), ListOf(vs, Nil)).Got?
    ensures var s1 := BindLet(s, e, Bindings(names, cs), ListOf(vs, Nil)).value;
            && |s1| == |s| && Filled(s, e, s1[e - 1].slots, s1)
            && SlotsFor(s1[e - 1].slots, names, vs, s[e - 1].slots)
    decreases |names|
  {
    if names != [] {
      var s0 := NewSlot(s, e, names[0], vs[0]);
      LetBound(s0, e, names[1..], cs[1..], vs[1..]);
      var slots := BindLet(s0, e, Bindings(names[1..], cs[1..]), ListOf(vs[1..], Nil)).value[e - 1].slots;
      OneMoreSlot(slots, names, vs, s[e - 1].slots);
    }
  }

  lemma OneFilled(s: Store, e: nat, slots: Slots, a: Store, b: Store)
    requires Filled(s, e, slots, a) && Filled(s, e, slots, b)
    ensures a == b
  {
    forall f | 0 <= f < |a| ensures a[f] == b[f] {}
  }

  /** There is one store with these slots in that frame. */
  lemma LetBoundIs(s: Store, e: nat, names: seq<Value>, cs: seq<Value>, vs: seq<Value>, slots: Slots, s1: Store)
    requires |names| == |cs| == |vs| && Filled(s, e, slots, s1) && SlotsFor(slots, names, vs, s[e - 1].slots)
    ensures BindLet(s, e, Bindings(names, cs), ListOf(vs, Nil)) == Got(s1)
  {
    var s2 := LetBoundTo(s, e, names, cs, vs);
    SlotsOnce(slots, s2[e - 1].slots, names, vs, s[e - 1].slots);
    OneFilled(s, e, slots, s1, s2);
  }

  lemma LetBoundTo(s: Store, e: nat, names: seq<Value>, cs: seq<Value>, vs: seq<Value>) returns (s1: Store)
    requires IsFrame(s, e) && |names| == |cs| == |vs|
    ensures BindLet(s, e, Bindings(names, cs), ListOf(vs, Nil)) == Got(s1)
    ensures |s1| == |s| && Filled(s, e, s1[e - 1].slots, s1)
    ensures SlotsFor(s1[e - 1].slots, names, vs, s[e - 1].slots)
  {
    LetBound(s, e, names, cs, vs);
    s1 := BindLet(s, e, Bindings(names, cs), ListOf(vs, Nil)).value;
  }

  lemma {:induction false} NamesOf(names: seq<Value>, cs: seq<Value>)
    requires |names| == |cs|
    ensures LetNames(Bindings(names, cs)) == Got(ListOf(names, Nil))
    decreases |names|
  {
    if names != [] {
      NamesOf(names[1..], cs[1..]);
    }
  }

  // ---------------------------------------------------------------------------
  // Primitives
  // ---------------------------------------------------------------------------

  predicate AllNums(vs: seq<Value>) {
    forall i | 0 <= i < |vs| :: vs[i].Num?
  }

  function Total(vs: seq<Value>): int
    requires AllNums(vs)
  {
    if vs == [] then 0 else vs[0].n + Total(vs[1..])
  }

  predicate AllSame(vs: seq<Value>) {
    forall i | 0 <= i < |vs| :: vs[i] == vs[0]
  }

  function Truth(b: bool): Value {
    if b then True else False
  }

  /** What a primitive gives for these arguments. */
  predicate Computes(p: Prim, vs: seq<Value>, r: Value) {
    match p
    case Cons => |vs| == 2 && r == Pair(vs[0], vs[1])
    case Car => |vs| == 1 && vs[0].Pair? && r == vs[0].car
    case Cdr => |vs| == 1 && vs[0].Pair? && r == vs[0].cdr
    case IsNull => |vs| == 1 && r == Truth(vs[0] == Nil)
    case IsPair => |vs| == 1 && r == Truth(vs[0].Pair?)
    case Not => |vs| == 1 && r == Truth(vs[0] == False)
    case Plus => AllNums(vs) && r == Num(Total(vs))
    case Minus =>
      && vs != [] && AllNums(vs)
      && r == Num(if |vs| == 1 then 0 - vs[0].n else vs[0].n - Total(vs[1..]))
    case NumEq => |vs| >= 2 && AllNums(vs) && r == Truth(AllSame(vs))
  }

  lemma {:induction false} FoldedIs(acc: int, sign: int, vs: seq<Value>)
    requires sign == 1 || sign == -1
    ensures Folded(acc, sign, ListOf(vs, Nil)) == if AllNums(vs) then Got(Num(acc + sign * Total(vs))) else Fault
    decreases |vs|
  {
    if vs != [] {
      AllNumsParts(vs);
      if vs[0].Num? {
        FoldedIs(acc + sign * vs[0].n, sign, vs[1..]);
      }
    }
  }

  lemma AllNumsParts(vs: seq<Value>)
    requires vs != []
    ensures AllNums(vs) <==> vs[0].Num? && AllNums(vs[1..])
  {
    assert vs == [vs[0]] + vs[1..];
  }

  lemma {:induction false} AllEqualIs(a: int, vs: seq<Value>)
    ensures AllEqual(a, ListOf(vs, Nil)) ==
              if AllNums(vs) then Got(Truth(forall i | 0 <= i < |vs| :: vs[i] == Num(a))) else Fault
    decreases |vs|
  {
    if vs != [] {
      AllNumsParts(vs);
      if vs[0].Num? {
        AllEqualIs(vs[0].n, vs[1..]);
        assert vs == [vs[0]] + vs[1..];
      }
    }
  }

  lemma ListParts(vs: seq<Value>)
    ensures vs == [] ==> ListOf(vs, Nil) == Nil
    ensures |vs| == 1 ==> ListOf(vs, Nil) == Pair(vs[0], Nil)
    ensures |vs| == 2 ==> ListOf(vs, Nil) == Pair(vs[0], Pair(vs[1], Nil))
    ensures |vs| > 1 ==> ListOf(vs, Nil).Pair? && ListOf(vs, Nil).cdr == ListOf(vs[1..], Nil) != Nil
    ensures |vs| > 2 ==> ListOf(vs, Nil).cdr.Pair? && ListOf(vs, Nil).cdr.cdr != Nil
  {
    if |vs| > 1 {
      var d := ListOf(vs[1..], Nil);
      assert d == Pair(vs[1], ListOf(vs[1..][1..], Nil));
    }
  }

  lemma PairPrimitive(p: Prim, vs: seq<Value>, r: Value)
    requires p == Cons || p == Car || p == Cdr || p == IsNull || p == IsPair || p == Not
    ensures ApplyPrim(p, ListOf(vs, Nil)) == Got(r) <==> Computes(p, vs, r)
  {
    ListParts(vs);
  }

  lemma SumPrimitive(vs: seq<Value>, r: Value)
    ensures ApplyPrim(Plus, ListOf(vs, Nil)) == Got(r) <==> Computes(Plus, vs, r)
  {
    FoldedIs(0, 1, vs);
  }

  lemma DifferencePrimitive(vs: seq<Value>, r: Value)
    ensures ApplyPrim(Minus, ListOf(vs, Nil)) == Got(r) <==> Computes(Minus, vs, r)
  {
    ListParts(vs);
    if vs != [] {
      AllNumsParts(vs);
      if vs[0].Num? {
        FoldedIs(vs[0].n, -1, vs[1..]);
      }
    }
  }

  lemma EqualityPrimitive(vs: seq<Value>, r: Value)
    ensures ApplyPrim(NumEq, ListOf(vs, Nil)) == Got(r) <==> Computes(NumEq, vs, r)
  {
    ListParts(vs);
    if |vs| >= 2 {
      AllNumsParts(vs);
      if vs[0].Num? {
        AllEqualIs(vs[0].n, vs[1..]);
        SameAsFirst(vs);
      }
    }
  }

  lemma SameAsFirst(vs: seq<Value>)
    requires vs != [] && vs[0].Num?
    ensures AllSame(vs) <==> forall i | 0 <= i < |vs[1..]| :: vs[1..][i] == Num(vs[0].n)
  {
    assert vs == [vs[0]] + vs[1..];
  }

  /** A primitive gives a value exactly for the arguments it is defined for. */
  lemma PrimitiveComputes(p: Prim, vs: seq<Value>, r: Value)
    ensures ApplyPrim(p, ListOf(vs, Nil)) == Got(r) <==> Computes(p, vs, r)
  {
    match p
    case Plus => SumPrimitive(vs, r);
    case Minus => DifferencePrimitive(vs, r);
    case NumEq => EqualityPrimitive(vs, r);
    case _ => PairPrimitive(p, vs, r);
  }
}
