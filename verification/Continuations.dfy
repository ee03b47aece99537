/** First-class continuations: `dump_stack_copy` copies the dump when a continuation is made, and
    `dump_stack_continuation_set` copies it again when it is invoked. */
module Continuations {
  import opened CellLists

  datatype Frame = Frame(op: nat, args: Ptr, envir: Ptr, code: Ptr)

  datatype Registers = Registers(args: Ptr, envir: Ptr, code: Ptr, value: Ptr)

  /** `saved` are the dumps that continuations hold. */
  datatype State = State(heap: Heap, regs: Registers, dump: seq<Frame>, saved: seq<seq<Frame>>)

  /** A frame whose arguments are a proper list and whose code is one, or a symbol. */
  ghost predicate FrameOk(h: Heap, f: Frame) {
    Proper(h, f.args) && (f.code.Symbol? || Proper(h, f.code))
  }

  ghost predicate FramesOk(h: Heap, frames: seq<Frame>) {
    forall j | 0 <= j < |frames| :: FrameOk(h, frames[j])
  }

  /** What a frame holds, whichever cells its two lists are made of. */
  datatype View = View(op: nat, args: seq<Ptr>, envir: Ptr, code: CodeView)

  datatype CodeView = Name(symbol: Ptr) | Forms(forms: seq<Ptr>)

  ghost function ListView(h: Heap, p: Ptr): seq<Ptr>
    requires Proper(h, p)
  {
    InHeap(h, p, Spine(h, p));
    Cars(h, Spine(h, p))
  }

  ghost function ViewOf(h: Heap, f: Frame): View
    requires FrameOk(h, f)
  {
    View(f.op, ListView(h, f.args), f.envir, if f.code.Symbol? then Name(f.code) else Forms(ListView(h, f.code)))
  }

  ghost function Views(h: Heap, frames: seq<Frame>): seq<View>
    requires FramesOk(h, frames)
  {
    seq(|frames|, j requires 0 <= j < |frames| => ViewOf(h, frames[j]))
  }

  // ---------------------------------------------------------------------------
  // Copying frames
  // ---------------------------------------------------------------------------

  ghost function ListCopy(h: Heap, p: Ptr): (r: (Heap, Ptr))
    requires Proper(h, p)
  {
    InHeap(h, p, Spine(h, p));
    (Copied(h, Spine(h, p)), CopyHead(h, Spine(h, p)))
  }

  predicate Extends(h: Heap, h1: Heap) {
    |h| <= |h1| && h1[..|h|] == h
  }

  /** The cells of a list lie between two addresses. */
  ghost predicate ListIn(h: Heap, p: Ptr, lo: nat, hi: nat) {
    Proper(h, p) && forall c | c in Spine(h, p) :: lo <= c < hi
  }

  ghost predicate FrameIn(h: Heap, f: Frame, lo: nat, hi: nat) {
    ListIn(h, f.args, lo, hi) && (f.code.Symbol? || ListIn(h, f.code, lo, hi))
  }

  lemma ListCopyCorrect(h: Heap, p: Ptr)
    requires Proper(h, p)
    ensures var (h1, q) := ListCopy(h, p);
            Extends(h, h1) && ListIn(h1, q, |h|, |h1|) && ListView(h1, q) == ListView(h, p)
  {
    var cells := Spine(h, p);
    InHeap(h, p, cells);
    CopyIsList(h, cells);
    var (h1, q) := ListCopy(h, p);
    SpineUnique(h1, q, Upwards(|h|, |cells|), Spine(h1, q));
  }

  lemma Extended(h: Heap, h1: Heap, p: Ptr)
    requires Proper(h, p) && Extends(h, h1)
    ensures Proper(h1, p) && Spine(h1, p) == Spine(h, p) && ListView(h1, p) == ListView(h, p)
  {
    SpineAgrees(h, h1, p);
  }

  /** What stays is said of the old heap, for later steps. */
  lemma FrameExtended(h: Heap, h1: Heap, f: Frame)
    requires FrameOk(h, f) && Extends(h, h1)
    ensures FrameOk(h1, f) && ViewOf(h1, f) == ViewOf(h, f)
    ensures forall lo: nat, hi: nat :: FrameIn(h, f, lo, hi) ==> FrameIn(h1, f, lo, hi)
  {
    Extended(h, h1, f.args);
    if !f.code.Symbol? {
      Extended(h, h1, f.code);
    }
  }

  ghost function CopyFrame(h: Heap, f: Frame): (r: (Heap, Frame))
    requires FrameOk(h, f)
    ensures Extends(h, r.0) && FrameIn(r.0, r.1, |h|, |r.0|) && FrameOk(r.0, r.1) && ViewOf(r.0, r.1) == ViewOf(h, f)
  {
    ListCopyCorrect(h, f.args);
    var (h1, args) := ListCopy(h, f.args);
    if f.code.Symbol? then (h1, f.(args := args))
    else
      Extended(h, h1, f.code);
      ListCopyCorrect(h1, f.code);
      var (h2, code) := ListCopy(h1, f.code);
      Extended(h1, h2, args);
      (h2, f.(args := args, code := code))
  }

  lemma FramesExtended(h: Heap, h1: Heap, frames: seq<Frame>)
    requires FramesOk(h, frames) && Extends(h, h1)
    ensures FramesOk(h1, frames) && Views(h1, frames) == Views(h, frames)
  {
    forall j | 0 <= j < |frames| ensures FrameOk(h1, frames[j]) && ViewOf(h1, frames[j]) == ViewOf(h, frames[j]) {
      FrameExtended(h, h1, frames[j]);
    }
  }

  ghost predicate FramesIn(h: Heap, frames: seq<Frame>, lo: nat, hi: nat) {
    forall j | 0 <= j < |frames| :: FrameIn(h, frames[j], lo, hi)
  }

  /** The frames copied one after the other, from the bottom of the dump. */
  ghost function CopyFrames(h: Heap, frames: seq<Frame>): (r: (Heap, seq<Frame>))
    requires FramesOk(h, frames)
    ensures Extends(h, r.0) && |r.1| == |frames|
    decreases |frames|
  {
    if frames == [] then (h, [])
    else
      var n := |frames| - 1;
      var (h1, init) := CopyFrames(h, frames[..n]);
      FrameExtended(h, h1, frames[n]);
      var (h2, last) := CopyFrame(h1, frames[n]);
      (h2, init + [last])
  }

  lemma CopyOneMore(h: Heap, frames: seq<Frame>, j: nat)
    requires FramesOk(h, frames) && j < |frames|
    ensures FramesOk(h, frames[..j]) && FramesOk(h, frames[..j + 1])
    ensures var (h1, copies) := CopyFrames(h, frames[..j]);
            && FrameOk(h1, frames[j])
            && CopyFrames(h, frames[..j + 1])
            == (CopyFrame(h1, frames[j]).0, copies + [CopyFrame(h1, frames[j]).1])
  {
    assert frames[..j + 1][..j] == frames[..j];
    FrameExtended(h, CopyFrames(h, frames[..j]).0, frames[j]);
  }

  lemma FramesInExtended(h: Heap, h1: Heap, frames: seq<Frame>, lo: nat)
    requires FramesOk(h, frames) && FramesIn(h, frames, lo, |h|) && Extends(h, h1)
    ensures FramesIn(h1, frames, lo, |h1|)
  {
    forall j | 0 <= j < |frames| ensures FrameIn(h1, frames[j], lo, |h1|) {
      FrameExtended(h, h1, frames[j]);
      assert FrameIn(h1, frames[j], lo, |h|);
    }
  }

  lemma LastIn(h: Heap, f: Frame, lo: nat, lower: nat)
    requires FrameIn(h, f, lo, |h|) && lower <= lo
    ensures FrameIn(h, f, lower, |h|)
  {
  }

  lemma Snoc(h: Heap, frames: seq<Frame>, f: Frame, lo: nat, hi: nat)
    requires FramesOk(h, frames) && FrameOk(h, f)
    ensures FramesOk(h, frames + [f]) && Views(h, frames + [f]) == Views(h, frames) + [ViewOf(h, f)]
    ensures FramesIn(h, frames, lo, hi) && FrameIn(h, f, lo, hi) ==> FramesIn(h, frames + [f], lo, hi)
  {
  }

  /** The copies hold what the frames held, in cells of their own. */
  lemma {:induction false} CopyFramesCorrect(h: Heap, frames: seq<Frame>)
    requires FramesOk(h, frames)
    ensures var (h1, copies) := CopyFrames(h, frames);
            && FramesIn(h1, copies, |h|, |h1|) && FramesOk(h1, copies)
            && Views(h1, copies) == Views(h, frames)
    decreases |frames|
  {
    if frames != [] {
      var n := |frames| - 1;
      CopyFramesCorrect(h, frames[..n]);
      var (h1, init) := CopyFrames(h, frames[..n]);
      FrameExtended(h, h1, frames[n]);
      var (h2, last) := CopyFrame(h1, frames[n]);
      LastIn(h2, last, |h1|, |h|);
      FramesExtended(h1, h2, init);
      FramesInExtended(h1, h2, init, |h|);
      Snoc(h2, init, last, |h|, |h2|);
      assert frames == frames[..n] + [frames[n]];
      Snoc(h, frames[..n], frames[n], 0, 0);
    }
  }

  // ---------------------------------------------------------------------------
  // A program that makes and invokes continuations
  // ---------------------------------------------------------------------------

  datatype Place = Args | Envir | Code | Value

  /** A constant, or what a path of `car`s (`true`) and `cdr`s leads to from a register. */
  datatype Operand = Constant(c: Ptr) | Path(from: Place, path: seq<bool>)

  datatype Option<T> = None | Some(value: T)

  datatype Action =
    | Assign(place: Place, from: Operand)
    | ConsUp(a: Operand, d: Operand)
    | SetCar(at: Operand, to: Operand)
    | SetCdr(at: Operand, to: Operand)
    | Save(op: nat, args: Operand, code: Operand)
    | Return(v: Operand)
    | Reverse
    | Capture
    | Invoke(k: nat)

  function Follow(h: Heap, p: Ptr, path: seq<bool>): Option<Ptr>
    decreases |path|
  {
    if path == [] then Some(p)
    else if p.At? && p.i < |h| then Follow(h, if path[0] then h[p.i].car else h[p.i].cdr, path[1..])
    else None
  }

  function In(r: Registers, place: Place): Ptr {
    match place
    case Args => r.args
    case Envir => r.envir
    case Code => r.code
    case Value => r.value
  }

  function Put(r: Registers, place: Place, p: Ptr): Registers {
    match place
    case Args => r.(args := p)
    case Envir => r.(envir := p)
    case Code => r.(code := p)
    case Value => r.(value := p)
  }

  function Find(s: State, o: Operand): Option<Ptr> {
    match o
    case Constant(c) => if c.At? then None else Some(c)
    case Path(from, path) => Follow(s.heap, In(s.regs, from), path)
  }

  predicate IsCell(s: State, o: Operand) {
    Find(s, o).Some? && Find(s, o).value.At? && Find(s, o).value.i < |s.heap|
  }

  ghost predicate Enabled(s: State, a: Action) {
    match a
    case Assign(_, from) => Find(s, from).Some?
    case ConsUp(x, d) => Find(s, x).Some? && Find(s, d).Some?
    case SetCar(at, to) => IsCell(s, at) && Find(s, to).Some?
    case SetCdr(at, to) => IsCell(s, at) && Find(s, to).Some?
    case Save(_, args, code) => Find(s, args).Some? && Find(s, code).Some?
    case Return(v) => Find(s, v).Some?
    case Reverse => Proper(s.heap, s.regs.args)
    case Capture => FramesOk(s.heap, s.dump)
    case Invoke(k) => k < |s.saved| && FramesOk(s.heap, s.saved[k])
  }

  ghost function Apply(s: State, a: Action): State
    requires Enabled(s, a)
  {
    match a
    case Assign(place, from) => s.(regs := Put(s.regs, place, Find(s, from).value))
    case ConsUp(x, d) =>
      s.(heap := s.heap + [Cell(Find(s, x).value, Find(s, d).value)], regs := s.regs.(value := At(|s.heap|)))
    case SetCar(at, to) =>
      var i := Find(s, at).value.i;
      s.(heap := s.heap[i := s.heap[i].(car := Find(s, to).value)])
    case SetCdr(at, to) =>
      var i := Find(s, at).value.i;
      s.(heap := s.heap[i := s.heap[i].(cdr := Find(s, to).value)])
    case Save(op, args, code) => Saved(s, Frame(op, Find(s, args).value, s.regs.envir, Find(s, code).value))
    case Return(v) => Returned(s, Find(s, v).value)
    case Reverse => Turnabout(s)
    case Capture => Captured(s)
    case Invoke(k) => Invoked(s, k)
  }

  /** `s_save`. */
  function Saved(s: State, f: Frame): State {
    s.(dump := s.dump + [f])
  }

  /** `_s_return`. */
  function Returned(s: State, v: Ptr): State {
    if s.dump == [] then s.(regs := s.regs.(value := v))
    else
      var f := s.dump[|s.dump| - 1];
      s.(regs := Registers(f.args, f.envir, f.code, v), dump := s.dump[..|s.dump| - 1])
  }

  /** What the actions on registers and cells do, whatever their operands lead to. */
  lemma ActionsDo(s: State, x: Operand, d: Operand, i: nat)
    requires Find(s, x).Some? && Find(s, d) == Some(At(i)) && i < |s.heap|
    ensures var v := Find(s, x).value;
            && Enabled(s, Assign(Args, x)) && Apply(s, Assign(Args, x)).regs == s.regs.(args := v)
            && Enabled(s, Assign(Envir, x)) && Apply(s, Assign(Envir, x)).regs == s.regs.(envir := v)
            && Enabled(s, Assign(Code, x)) && Apply(s, Assign(Code, x)).regs == s.regs.(code := v)
            && Enabled(s, Assign(Value, x)) && Apply(s, Assign(Value, x)).regs == s.regs.(value := v)
            && Enabled(s, SetCar(d, x)) && Apply(s, SetCar(d, x)) == s.(heap := s.heap[i := Cell(v, s.heap[i].cdr)])
            && Enabled(s, SetCdr(d, x)) && Apply(s, SetCdr(d, x)) == s.(heap := s.heap[i := Cell(s.heap[i].car, v)])
            && Enabled(s, ConsUp(x, d))
            && Apply(s, ConsUp(x, d)) == s.(heap := s.heap + [Cell(v, At(i))], regs := s.regs.(value := At(|s.heap|)))
  {
  }

  /** Every pointer that the registers lead to can be an operand: a path may go on from any cell. */
  lemma {:induction false} PathsGoOn(s: State, from: Place, path: seq<bool>, i: nat)
    requires Find(s, Path(from, path)) == Some(At(i)) && i < |s.heap|
    ensures Find(s, Path(from, path + [true])) == Some(s.heap[i].car)
    ensures Find(s, Path(from, path + [false])) == Some(s.heap[i].cdr)
    ensures Find(s, Path(Args, [])) == Some(s.regs.args) && Find(s, Path(Envir, [])) == Some(s.regs.envir)
    ensures Find(s, Path(Code, [])) == Some(s.regs.code) && Find(s, Path(Value, [])) == Some(s.regs.value)
  {
    FollowOn(s.heap, In(s.regs, from), path, true, i);
    FollowOn(s.heap, In(s.regs, from), path, false, i);
  }

  lemma {:induction false} FollowOn(h: Heap, p: Ptr, path: seq<bool>, car: bool, i: nat)
    requires Follow(h, p, path) == Some(At(i)) && i < |h|
    ensures Follow(h, p, path + [car]) == Some(if car then h[i].car else h[i].cdr)
    decreases |path|
  {
    if path != [] {
      FollowOn(h, if path[0] then h[p.i].car else h[p.i].cdr, path[1..], car, i);
      assert (path + [car])[1..] == path[1..] + [car];
    } else {
      assert path + [car] == [car];
    }
  }

  /** A return undoes the last save: its three registers come back, with the value, and the dump is what
      it was; with an empty dump only the value changes. */
  lemma ReturnUndoesSave(s: State, f: Frame, v: Ptr)
    ensures Returned(Saved(s, f), v) == State(s.heap, Registers(f.args, f.envir, f.code, v), s.dump, s.saved)
    ensures s.dump == [] ==> Returned(s, v) == s.(regs := s.regs.(value := v))
  {
    assert (s.dump + [f])[..|s.dump|] == s.dump;
  }

  /** `args = reverse_in_place(NIL, args)`. */
  ghost function Turnabout(s: State): State
    requires Proper(s.heap, s.regs.args)
  {
    var cells := Spine(s.heap, s.regs.args);
    InHeap(s.heap, s.regs.args, cells);
    s.(heap := Turned(s.heap, cells, Nil), regs := s.regs.(args := Head(cells, Nil)))
  }

  /** `dump_stack_copy`. */
  ghost function Captured(s: State): State
    requires FramesOk(s.heap, s.dump)
  {
    var (h, copies) := CopyFrames(s.heap, s.dump);
    s.(heap := h, saved := s.saved + [copies], regs := s.regs.(value := Continuation(|s.saved|)))
  }

  /** `dump_stack_continuation_set`. */
  ghost function Invoked(s: State, k: nat): State
    requires k < |s.saved| && FramesOk(s.heap, s.saved[k])
  {
    var (h, copies) := CopyFrames(s.heap, s.saved[k]);
    s.(heap := h, dump := copies)
  }

  // ---------------------------------------------------------------------------
  // The cells that only continuations use
  // ---------------------------------------------------------------------------

  /** A pointer that the program may hold; `own` are the cells of saved frames. */
  predicate Live(h: Heap, own: set<nat>, p: Ptr) {
    p.At? ==> p.i < |h| && p.i !in own
  }

  predicate HeapOk(h: Heap, own: set<nat>) {
    forall i | 0 <= i < |h| :: Live(h, own, h[i].car) && (i !in own ==> Live(h, own, h[i].cdr))
  }

  predicate RegistersOk(h: Heap, own: set<nat>, r: Registers) {
    Live(h, own, r.args) && Live(h, own, r.envir) && Live(h, own, r.code) && Live(h, own, r.value)
  }

  predicate LiveFrame(h: Heap, own: set<nat>, f: Frame) {
    Live(h, own, f.args) && Live(h, own, f.envir) && Live(h, own, f.code)
  }

  ghost predicate ListOwned(h: Heap, own: set<nat>, p: Ptr) {
    Proper(h, p) && forall c | c in Spine(h, p) :: c in own
  }

  ghost predicate SavedFrame(h: Heap, own: set<nat>, f: Frame) {
    && ListOwned(h, own, f.args) && Live(h, own, f.envir)
    && (f.code.Symbol? || ListOwned(h, own, f.code))
  }

  ghost predicate SavedFrames(h: Heap, own: set<nat>, frames: seq<Frame>) {
    forall j | 0 <= j < |frames| :: SavedFrame(h, own, frames[j])
  }

  ghost predicate Separate(s: State, own: set<nat>) {
    && (forall i | i in own :: i < |s.heap|)
    && HeapOk(s.heap, own) && RegistersOk(s.heap, own, s.regs)
    && (forall j | 0 <= j < |s.dump| :: LiveFrame(s.heap, own, s.dump[j]))
    && forall k | 0 <= k < |s.saved| :: SavedFrames(s.heap, own, s.saved[k])
  }

  lemma {:induction false} FollowLive(h: Heap, own: set<nat>, p: Ptr, path: seq<bool>)
    requires HeapOk(h, own) && Live(h, own, p) && Follow(h, p, path).Some?
    ensures Live(h, own, Follow(h, p, path).value)
    decreases |path|
  {
    if path != [] {
      FollowLive(h, own, if path[0] then h[p.i].car else h[p.i].cdr, path[1..]);
    }
  }

  lemma FindLive(s: State, own: set<nat>, o: Operand)
    requires Separate(s, own) && Find(s, o).Some?
    ensures Live(s.heap, own, Find(s, o).value)
  {
    if o.Path? {
      FollowLive(s.heap, own, In(s.regs, o.from), o.path);
    }
  }

  /** Saved frames are what they were in a heap that has the same cells of their own. */
  lemma SavedFramesAgree(h: Heap, h1: Heap, own: set<nat>, own1: set<nat>, frames: seq<Frame>)
    requires SavedFrames(h, own, frames) && |h| <= |h1| && own <= own1
    requires forall c | c in own && c < |h| :: h1[c] == h[c]
    requires forall c | c in own1 && c < |h| :: c in own
    ensures SavedFrames(h1, own1, frames) && FramesOk(h, frames) && FramesOk(h1, frames)
    ensures Views(h1, frames) == Views(h, frames)
  {
    forall j | 0 <= j < |frames|
      ensures SavedFrame(h1, own1, frames[j]) && ViewOf(h1, frames[j]) == ViewOf(h, frames[j])
    {
      var f := frames[j];
      assert SavedFrame(h, own, f);
      SpineAgrees(h, h1, f.args);
      if !f.code.Symbol? {
        SpineAgrees(h, h1, f.code);
      }
    }
  }

  /** What every step does for the continuations there are. */
  ghost predicate Kept(s: State, own: set<nat>, s1: State, own1: set<nat>) {
    && Separate(s1, own1)
    && s.saved <= s1.saved
    && forall k | 0 <= k < |s.saved| ::
         && FramesOk(s.heap, s.saved[k]) && FramesOk(s1.heap, s.saved[k])
         && Views(s1.heap, s.saved[k]) == Views(s.heap, s.saved[k])
  }

  /** A step after which the cells of saved frames are what they were. */
  lemma HeapStep(s: State, own: set<nat>, s1: State, own1: set<nat>)
    requires Separate(s, own) && s.saved <= s1.saved && |s.heap| <= |s1.heap| && own <= own1
    requires forall c | c in own :: s1.heap[c] == s.heap[c]
    requires forall c | c in own1 :: c < |s1.heap| && (c < |s.heap| ==> c in own)
    requires HeapOk(s1.heap, own1) && RegistersOk(s1.heap, own1, s1.regs)
    requires forall j | 0 <= j < |s1.dump| :: LiveFrame(s1.heap, own1, s1.dump[j])
    requires forall k | |s.saved| <= k < |s1.saved| :: SavedFrames(s1.heap, own1, s1.saved[k])
    ensures Kept(s, own, s1, own1)
  {
    forall k | 0 <= k < |s.saved|
      ensures SavedFrames(s1.heap, own1, s.saved[k])
      ensures FramesOk(s.heap, s.saved[k]) && FramesOk(s1.heap, s.saved[k])
      ensures Views(s1.heap, s.saved[k]) == Views(s.heap, s.saved[k])
    {
      SavedFramesAgree(s.heap, s1.heap, own, own1, s.saved[k]);
    }
  }

  lemma {:induction false} LiveSpine(h: Heap, own: set<nat>, p: Ptr, cells: seq<nat>)
    requires HeapOk(h, own) && Live(h, own, p) && IsList(h, p, cells)
    ensures forall c | c in cells :: c !in own
    decreases |cells|
  {
    if cells != [] {
      LiveSpine(h, own, h[cells[0]].cdr, cells[1..]);
      assert cells == [cells[0]] + cells[1..];
    }
  }

  /** `reverse_in_place` on a list of the program leaves the cells of saved frames alone. */
  lemma {:induction false} TurnedOk(h: Heap, own: set<nat>, cells: seq<nat>, term: Ptr)
    requires HeapOk(h, own) && Within(h, cells) && Live(h, own, term)
    requires forall i | 0 <= i < |cells| :: cells[i] !in own
    ensures HeapOk(Turned(h, cells, term), own) && Live(h, own, Head(cells, term))
    ensures forall c | c in own && c < |h| :: Turned(h, cells, term)[c] == h[c]
    decreases |cells|
  {
    if cells != [] {
      TurnedOk(h[cells[0] := h[cells[0]].(cdr := term)], own, cells[1..], At(cells[0]));
    }
  }

  /** Cells that copying adds: their `car`s are pointers of the program, their `cdr`s lead to
      other cells of the copy. */
  predicate NewCells(h: Heap, own: set<nat>, h1: Heap) {
    && Extends(h, h1)
    && (forall i | 0 <= i < |h1| :: Live(h, own, h1[i].car))
    && (forall i | |h| <= i < |h1| :: h1[i].cdr.Nil? || (h1[i].cdr.At? && |h| <= h1[i].cdr.i < |h1|))
  }

  lemma ListCopyNew(h: Heap, own: set<nat>, h1: Heap, p: Ptr)
    requires NewCells(h, own, h1) && Proper(h1, p)
    ensures NewCells(h, own, ListCopy(h1, p).0)
  {
    InHeap(h1, p, Spine(h1, p));
  }

  lemma {:induction false} CopyFramesNew(h: Heap, own: set<nat>, frames: seq<Frame>)
    requires HeapOk(h, own) && FramesOk(h, frames)
    ensures NewCells(h, own, CopyFrames(h, frames).0)
    ensures forall j | 0 <= j < |frames| :: CopyFrames(h, frames).1[j].envir == frames[j].envir
    decreases |frames|
  {
    if frames != [] {
      var n := |frames| - 1;
      CopyFramesNew(h, own, frames[..n]);
      var (h1, init) := CopyFrames(h, frames[..n]);
      FrameExtended(h, h1, frames[n]);
      var f := frames[n];
      ListCopyNew(h, own, h1, f.args);
      var (h2, args) := ListCopy(h1, f.args);
      if !f.code.Symbol? {
        ListCopyCorrect(h1, f.args);
        Extended(h1, h2, f.code);
        ListCopyNew(h, own, h2, f.code);
      }
    }
  }

  // ---------------------------------------------------------------------------
  // Steps
  // ---------------------------------------------------------------------------

  lemma AssignKeeps(s: State, own: set<nat>, a: Action)
    requires Separate(s, own) && Enabled(s, a) && (a.Assign? || a.Save? || a.Return?)
    ensures Kept(s, own, Apply(s, a), own)
  {
    match a
    case Assign(_, from) =>
      FindLive(s, own, from);
      HeapStep(s, own, Apply(s, a), own);
    case Save(_, args, code) =>
      FindLive(s, own, args);
      FindLive(s, own, code);
      HeapStep(s, own, Apply(s, a), own);
    case Return(v) =>
      FindLive(s, own, v);
      HeapStep(s, own, Apply(s, a), own);
  }

  lemma StoreKeeps(s: State, own: set<nat>, a: Action)
    requires Separate(s, own) && Enabled(s, a) && (a.ConsUp? || a.SetCar? || a.SetCdr?)
    ensures Kept(s, own, Apply(s, a), own)
  {
    match a
    case ConsUp(x, d) =>
      FindLive(s, own, x);
      FindLive(s, own, d);
      HeapStep(s, own, Apply(s, a), own);
    case SetCar(at, to) =>
      FindLive(s, own, at);
      FindLive(s, own, to);
      HeapStep(s, own, Apply(s, a), own);
    case SetCdr(at, to) =>
      FindLive(s, own, at);
      FindLive(s, own, to);
      HeapStep(s, own, Apply(s, a), own);
  }

  lemma ReverseKeeps(s: State, own: set<nat>)
    requires Separate(s, own) && Proper(s.heap, s.regs.args)
    ensures Kept(s, own, Turnabout(s), own)
  {
    var cells := Spine(s.heap, s.regs.args);
    InHeap(s.heap, s.regs.args, cells);
    LiveSpine(s.heap, own, s.regs.args, cells);
    TurnedOk(s.heap, own, cells, Nil);
    HeapStep(s, own, Turnabout(s), own);
  }

  function Range(lo: nat, hi: nat): (r: set<nat>)
    ensures forall c :: c in r <==> lo <= c < hi
    decreases hi
  {
    if hi <= lo then {} else Range(lo, hi - 1) + {hi - 1}
  }

  lemma ListInLive(h: Heap, own: set<nat>, p: Ptr, lo: nat)
    requires ListIn(h, p, lo, |h|) && forall c | c in own :: c < lo
    ensures Live(h, own, p)
  {
    var cells := Spine(h, p);
    if cells != [] {
      assert cells[0] in cells;
    }
  }

  /** The copies may be saved, with the new cells as their own; or be the live dump. */
  lemma CopiesOk(h: Heap, own: set<nat>, frames: seq<Frame>)
    requires HeapOk(h, own) && FramesOk(h, frames) && forall c | c in own :: c < |h|
    requires forall j | 0 <= j < |frames| :: Live(h, own, frames[j].envir)
    ensures var (h1, copies) := CopyFrames(h, frames);
            && HeapOk(h1, own) && HeapOk(h1, own + Range(|h|, |h1|))
            && SavedFrames(h1, own + Range(|h|, |h1|), copies)
            && forall j | 0 <= j < |copies| :: LiveFrame(h1, own, copies[j])
  {
    var (h1, copies) := CopyFrames(h, frames);
    CopyFramesCorrect(h, frames);
    CopyFramesNew(h, own, frames);
    forall j | 0 <= j < |copies|
      ensures LiveFrame(h1, own, copies[j]) && SavedFrame(h1, own + Range(|h|, |h1|), copies[j])
    {
      assert FrameIn(h1, copies[j], |h|, |h1|) && Live(h, own, frames[j].envir);
      CopyOk(h, own, h1, copies[j]);
    }
    CopiedHeapOk(h, own, h1);
  }

  lemma CopyOk(h: Heap, own: set<nat>, h1: Heap, f: Frame)
    requires |h| <= |h1| && FrameIn(h1, f, |h|, |h1|) && Live(h, own, f.envir) && forall c | c in own :: c < |h|
    ensures LiveFrame(h1, own, f) && SavedFrame(h1, own + Range(|h|, |h1|), f)
  {
    ListInLive(h1, own, f.args, |h|);
    if !f.code.Symbol? {
      ListInLive(h1, own, f.code, |h|);
    }
  }

  lemma CopiedHeapOk(h: Heap, own: set<nat>, h1: Heap)
    requires HeapOk(h, own) && NewCells(h, own, h1) && forall c | c in own :: c < |h|
    ensures HeapOk(h1, own) && HeapOk(h1, own + Range(|h|, |h1|))
  {
    forall i | 0 <= i < |h|
      ensures Live(h, own, h1[i].car) && (i !in own ==> Live(h, own, h1[i].cdr))
    {
      assert h1[i] == h1[..|h|][i];
    }
  }

  /** The cells of the copies are the continuation's own from then on. */
  lemma CaptureKeeps(s: State, own: set<nat>) returns (own1: set<nat>)
    requires Separate(s, own) && FramesOk(s.heap, s.dump)
    ensures own <= own1 && Kept(s, own, Captured(s), own1)
  {
    var (h, copies) := CopyFrames(s.heap, s.dump);
    own1 := own + Range(|s.heap|, |h|);
    CopiesOk(s.heap, own, s.dump);
    forall j | 0 <= j < |s.dump| ensures LiveFrame(h, own1, s.dump[j]) {
      assert LiveFrame(s.heap, own, s.dump[j]);
    }
    HeapStep(s, own, Captured(s), own1);
  }

  /** The cells of the copies belong to the live dump. */
  lemma InvokeKeeps(s: State, own: set<nat>, k: nat)
    requires Separate(s, own) && k < |s.saved| && FramesOk(s.heap, s.saved[k])
    ensures Kept(s, own, Invoked(s, k), own)
  {
    forall j | 0 <= j < |s.saved[k]| ensures Live(s.heap, own, s.saved[k][j].envir) {
      assert SavedFrame(s.heap, own, s.saved[k][j]);
    }
    CopiesOk(s.heap, own, s.saved[k]);
    HeapStep(s, own, Invoked(s, k), own);
  }

  lemma StepKeeps(s: State, own: set<nat>, a: Action) returns (own1: set<nat>)
    requires Separate(s, own) && Enabled(s, a)
    ensures Kept(s, own, Apply(s, a), own1)
  {
    own1 := own;
    if a.Assign? || a.Save? || a.Return? {
      AssignKeeps(s, own, a);
    } else if a.Reverse? {
      ReverseKeeps(s, own);
    } else if a.Capture? {
      own1 := CaptureKeeps(s, own);
    } else if a.Invoke? {
      InvokeKeeps(s, own, a.k);
    } else {
      StoreKeeps(s, own, a);
    }
  }

  // ---------------------------------------------------------------------------
  // Runs
  // ---------------------------------------------------------------------------

  /** A program starts without continuations, with registers and frames that point into the heap. */
  ghost predicate Start(s: State) {
    Separate(s, {}) && s.saved == []
  }

  ghost predicate Run(states: seq<State>, actions: seq<Action>) {
    && |states| == |actions| + 1
    && Start(states[0])
    && forall i | 0 <= i < |actions| :: Enabled(states[i], actions[i]) && states[i + 1] == Apply(states[i], actions[i])
  }

  lemma {:induction false} RunSeparate(states: seq<State>, actions: seq<Action>, i: nat) returns (own: set<nat>)
    requires Run(states, actions) && i < |states|
    ensures Separate(states[i], own)
    decreases i
  {
    own := {};
    if i > 0 {
      var before := RunSeparate(states, actions, i - 1);
      own := StepKeeps(states[i - 1], before, actions[i - 1]);
    }
  }

  /** A continuation can be invoked at any time after it has been made. */
  lemma InvocationIsEnabled(states: seq<State>, actions: seq<Action>, i: nat, k: nat)
    requires Run(states, actions) && i < |states| && k < |states[i].saved|
    ensures Enabled(states[i], Invoke(k))
  {
    var own := RunSeparate(states, actions, i);
    assert SavedFrames(states[i].heap, own, states[i].saved[k]);
    SavedFramesAgree(states[i].heap, states[i].heap, own, own, states[i].saved[k]);
  }

  /** Nothing that the program does after a continuation has been made changes what it holds. */
  lemma {:induction false} ContinuationsKeep(states: seq<State>, actions: seq<Action>, i: nat, j: nat, k: nat)
    requires Run(states, actions) && i <= j < |states| && k < |states[i].saved|
    ensures states[i].saved <= states[j].saved
    ensures FramesOk(states[i].heap, states[i].saved[k]) && FramesOk(states[j].heap, states[i].saved[k])
    ensures Views(states[j].heap, states[i].saved[k]) == Views(states[i].heap, states[i].saved[k])
    decreases j
  {
    InvocationIsEnabled(states, actions, i, k);
    if i < j {
      ContinuationsKeep(states, actions, i, j - 1, k);
      var own := RunSeparate(states, actions, j - 1);
      var _ := StepKeeps(states[j - 1], own, actions[j - 1]);
      assert states[j - 1].saved[k] == states[i].saved[k];
    }
  }

  /** A continuation is re-enterable: whenever it is invoked, and however often, the dump becomes
      what it was when the continuation was made. */
  lemma Reenterable(states: seq<State>, actions: seq<Action>, i: nat, j: nat)
    requires Run(states, actions) && i < j < |actions|
    requires actions[i] == Capture && actions[j] == Invoke(|states[i].saved|)
    ensures FramesOk(states[i].heap, states[i].dump) && FramesOk(states[j + 1].heap, states[j + 1].dump)
    ensures Views(states[j + 1].heap, states[j + 1].dump) == Views(states[i].heap, states[i].dump)
  {
    var s, k := states[i], |states[i].saved|;
    CopyFramesCorrect(s.heap, s.dump);
    ContinuationsKeep(states, actions, i + 1, j, k);
    CopyFramesCorrect(states[j].heap, states[j].saved[k]);
  }

  /** After any invocation the next return goes on where the continuation was made: with the arguments,
      the environment and the code of the frame on top of the dump then, the value returned, and
      what is below that frame. */
  lemma Resumes(states: seq<State>, actions: seq<Action>, i: nat, j: nat, d: seq<Frame>, f: Frame)
    requires Run(states, actions) && i < j && j + 1 < |actions|
    requires actions[i] == Capture && actions[j] == Invoke(|states[i].saved|) && actions[j + 1].Return?
    requires states[i].dump == d + [f]
    ensures FramesOk(states[i].heap, states[i].dump) && Find(states[j + 1], actions[j + 1].v).Some?
    ensures FramesOk(states[j + 2].heap, states[j + 2].dump)
    ensures var h0, s, v := states[i].heap, states[j + 2], Find(states[j + 1], actions[j + 1].v).value;
            && s.regs.value == v && s.regs.envir == f.envir
            && FrameOk(h0, f) && FrameOk(s.heap, Frame(f.op, s.regs.args, s.regs.envir, s.regs.code))
            && ViewOf(s.heap, Frame(f.op, s.regs.args, s.regs.envir, s.regs.code)) == ViewOf(h0, f)
            && FramesOk(h0, d) && Views(s.heap, s.dump) == Views(h0, d)
  {
    Reenterable(states, actions, i, j);
    assert Enabled(states[j + 1], actions[j + 1]) && states[j + 1 + 1] == Apply(states[j + 1], actions[j + 1]);
    TopView(states[i].heap, states[j + 1].heap, d, f, states[j + 1].dump);
  }

  /** Equal dumps have equal tops, and below them they are equal. */
  lemma TopView(h: Heap, h1: Heap, d: seq<Frame>, f: Frame, frames: seq<Frame>)
    requires FramesOk(h, d + [f]) && FramesOk(h1, frames) && Views(h1, frames) == Views(h, d + [f])
    ensures |frames| == |d| + 1 && FrameOk(h, f) && FramesOk(h, d) && FrameOk(h1, frames[|d|])
    ensures ViewOf(h1, frames[|d|]) == ViewOf(h, f)
    ensures FramesOk(h1, frames[..|d|]) && Views(h1, frames[..|d|]) == Views(h, d)
  {
    var all, n := d + [f], |d|;
    assert |Views(h1, frames)| == |frames| && |Views(h, all)| == n + 1;
    assert all[n] == f && Views(h, all)[n] == ViewOf(h, f) && Views(h1, frames)[n] == ViewOf(h1, frames[n]);
    forall k | 0 <= k < n ensures FrameOk(h, d[k]) && ViewOf(h, d[k]) == ViewOf(h1, frames[k]) {
      assert all[k] == d[k] && Views(h, all)[k] == Views(h1, frames)[k];
    }
  }

  /** A dump that is put in place without being copied: its frames and those of the continuation
      are lists of the same cells. */
  function InvokedUncopied(s: State, k: nat): State
    requires k < |s.saved|
  {
    s.(dump := s.saved[k])
  }

  /** Then one reversal of the arguments of the topmost frame, which is what the machine does at
      the end of every list of operands, is enough to damage the continuation. */
  lemma CopyingIsNeeded()
    ensures exists s: State ::
      && |s.saved| == 1 && |s.saved[0]| == 1 && FrameOk(s.heap, s.saved[0][0])
      && ListView(s.heap, s.saved[0][0].args) == [Number(1), Number(2)]
      && var s1 := Returned(InvokedUncopied(s, 0), Nil);
         && Proper(s1.heap, s1.regs.args)
         && Proper(Turnabout(s1).heap, s.saved[0][0].args)
         && ListView(Turnabout(s1).heap, s.saved[0][0].args) == [Number(1)]
  {
    var h := [Cell(Number(1), At(1)), Cell(Number(2), Nil)];
    var f := Frame(0, At(0), Nil, Nil);
    var s := State(h, Registers(Nil, Nil, Nil, Nil), [], [[f]]);
    assert IsList(h, Nil, []) && IsList(h, At(1), [1]) && IsList(h, At(0), [0, 1]);
    SpineUnique(h, At(0), Spine(h, At(0)), [0, 1]);
    var h1 := Turned(h, [0, 1], Nil);
    assert h1 == [Cell(Number(1), Nil), Cell(Number(2), At(0))] by {
      assert [0, 1][1..] == [1] && [1][1..] == [];
    }
    assert IsList(h1, At(0), [0]);
    SpineUnique(h1, At(0), Spine(h1, At(0)), [0]);
    var s1 := Returned(InvokedUncopied(s, 0), Nil);
    assert s1 == State(h, Registers(At(0), Nil, Nil, Nil), [], [[f]]);
    assert ListView(h1, At(0)) == [Number(1)];
  }
}
