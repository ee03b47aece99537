/** When reading comes to an end.  A walk over the tokens, with no values, tells beforehand whether the
    reading machine returns a datum, stops with an error, or goes on for ever. */
module ReaderEnds {
  import opened Registers
  import opened MachineRuns
  import opened Adequacy
  import opened Lexer
  import opened Reader

  // ---------------------------------------------------------------------------
  // Progress through the text
  // ---------------------------------------------------------------------------

  /** Nothing comes any more: the text is used up, or a NUL is next. */
  predicate AtEnd(s: Port) {
    s.pos == |s.text| || s.text[s.pos] == '\0'
  }

  /** A word of at least one character is next. */
  predicate Fresh(s: Port) {
    Extent(s.text, s.pos) > 0
  }

  lemma SkipSpaceMoves(t: string, p: nat)
    requires IsBytes(t) && p <= |t|
    ensures p <= SkipSpace(t, p) <= |t|
    ensures SkipSpace(t, p) == p ==> p == |t| || t[p] == '\0' || (!IsBlank(Signed(t[p])) && Signed(t[p]) != EOF)
    decreases |t| - p
  {
    var (c, q) := Inchar(t, p);
    if IsBlank(c) {
      SkipSpaceMoves(t, q);
    }
  }

  lemma TokenMoves(t: string, p: nat)
    requires IsBytes(t) && p <= |t|
    ensures var (token, q) := TokenAt(t, p);
            && p <= q <= |t|
            && (token == END ==> q > p || p == |t| || t[p] == '\0')
            && (token == ATOM ==> q == p && p < |t| && t[p] !in "()';")
            && (token != END && token != ATOM ==> q > p)
  {
  }

  lemma WordIsFresh(t: string, p: nat)
    requires IsBytes(t) && p < |t| && t[p] !in "()';"
    requires !IsBlank(Signed(t[p])) && Signed(t[p]) != EOF && t[p] != '\0'
    ensures Extent(t, p) > 0
  {
  }

  /** A token takes something off the text, unless it is the end or the beginning of a word. */
  lemma LexMoves(s: Port)
    ensures var s1 := Lex(s);
            && s1.text == s.text && s.pos <= s1.pos
            && (s1.pos == s.pos ==> (s1.token == END && AtEnd(s1)) || (s1.token == ATOM && Fresh(s1)))
  {
    var q := SkipSpace(s.text, s.pos);
    SkipSpaceMoves(s.text, s.pos);
    TokenMoves(s.text, q);
    if Lex(s).pos == s.pos && Lex(s).token == ATOM {
      WordIsFresh(s.text, q);
    }
  }

  lemma {:induction false} SkipLineMoves(t: string, p: nat)
    requires p <= |t|
    ensures p <= SkipLine(t, p)
    decreases |t| - p
  {
    var (c, q) := Inchar(t, p);
    if c != EOF && c != '\n' as int {
      SkipLineMoves(t, q);
    }
  }

  lemma ElementMoves(s: Port)
    ensures var s1 := LexElement(s);
            && s1.text == s.text && s.pos <= s1.pos
            && (s1.pos == s.pos ==> (s1.token == END && AtEnd(s1)) || (s1.token == ATOM && Fresh(s1)))
  {
    LexMoves(s);
    var s1 := Lex(s);
    if s1.token == COMMENT {
      SkipLineMoves(s1.text, s1.pos);
      LexMoves(GoTo(s1, SkipLine(s1.text, s1.pos)));
    }
  }

  lemma {:induction false} ReadStringMoves(t: string, p: nat, buf: string, state: Escape)
    requires IsBytes(t)
    ensures var r := ReadString(t, p, buf, state); r.Got? ==> p < r.value.1
    decreases |t| - p
  {
    var (c, q) := Inchar(t, p);
    if c != EOF && |buf| <= STRBUFF_SIZE - 1 && !(state == NoEscape && c == '"' as int) && LiteralStep(state, c).Got? {
      var (more, next) := LiteralStep(state, c).value;
      ReadStringMoves(t, q, buf + more, next);
    }
  }

  lemma WordMoves(t: string, p: nat)
    requires p <= |t|
    ensures p + Extent(t, p) <= ReadUpTo(t, p).1
  {
  }

  lemma AtomMovesOn(s: Port)
    ensures var r := Atom(s);
            r.Got? ==> r.value.1.text == s.text && r.value.1.load == s.load && s.pos <= r.value.1.pos
                       && (s.token == ATOM && Fresh(s) ==> s.pos < r.value.1.pos)
  {
    WordMoves(s.text, s.pos);
    ReadStringMoves(s.text, s.pos, "", NoEscape);
  }

  lemma CloseMoves(s: Port)
    ensures CloseList(s).text == s.text && s.pos <= CloseList(s).pos
  {
  }

  /** At the end nothing changes any more. */
  lemma EndStays(s: Port)
    requires AtEnd(s)
    ensures Lex(s) == s.(token := END) && LexElement(s) == Lex(s)
  {
  }

  // ---------------------------------------------------------------------------
  // The walk
  // ---------------------------------------------------------------------------

  /** What is open: a list, a quotation sign, or a dot with what is to follow it. */
  datatype Mark = InList | AfterSign | AfterDot

  datatype Verdict = Complete | Broken | NeverComplete

  /** Before a datum, whose first token has been read, or after one. */
  datatype Spot = Spot(s: Port, before: bool, open: seq<Mark>)

  datatype Move = Done(verdict: Verdict) | Go(w: Spot)

  function Top(open: seq<Mark>): Mark
    requires open != []
  {
    open[|open| - 1]
  }

  /** In a list of which nothing more can come. */
  predicate Stuck(w: Spot) {
    w.before && w.s.token == END && AtEnd(w.s) && w.open != [] && Top(w.open) == InList
  }

  function BeforeDatum(s: Port, open: seq<Mark>): Move {
    if s.token == END then
      if s.load then Done(Broken)
      else if Stuck(Spot(s, true, open)) then Done(NeverComplete)
      else Go(Spot(s, false, open))
    else if s.token == COMMENT then Go(Spot(SkipComment(s), true, open))
    else if s.token == OPEN then
      var s1 := Lex(s);
      if s1.token == CLOSE then Go(Spot(s1, false, open))
      else if s1.token == DOT then Done(Broken)
      else Go(Spot(Nested(s1, 1), true, open + [InList]))
    else if s.token == BACKTICK && Lex(s).token == VEC then Done(Broken)
    else if s.token in {TICK, BACKTICK, COMMA, ATMARK} then Go(Spot(Lex(s), true, open + [AfterSign]))
    else if Atom(s).Got? then Go(Spot(Atom(s).value.1, false, open))
    else Done(Broken)
  }

  function AfterDatum(s: Port, open: seq<Mark>): Move {
    if open == [] then Done(Complete)
    else
      var rest := open[..|open| - 1];
      match Top(open)
      case AfterSign => Go(Spot(s, false, rest))
      case AfterDot =>
        var s1 := Lex(s);
        if s1.token == CLOSE then Go(Spot(CloseDotted(s, s1), false, rest)) else Done(Broken)
      case InList =>
        var s1 := LexElement(s);
        if s1.token == CLOSE then Go(Spot(CloseList(s1), false, rest))
        else if s1.token == DOT then Go(Spot(Lex(s1), true, rest + [AfterDot]))
        else Go(Spot(s1, true, open))
  }

  function MoveOf(w: Spot): Move {
    if w.before then BeforeDatum(w.s, w.open) else AfterDatum(w.s, w.open)
  }

  function Left(w: Spot): nat {
    |w.s.text| - w.s.pos
  }

  /** What happens first where nothing is taken off the text. */
  function Phase(w: Spot): nat {
    if !w.before then 1
    else if w.s.token == ATOM then if Fresh(w.s) then 0 else 2
    else if w.s.token == END then if Stuck(w) then 0 else 2
    else 3
  }

  predicate Shrinks(w: Spot, w1: Spot) {
    || Left(w1) < Left(w)
    || (Left(w1) == Left(w) && Phase(w1) < Phase(w))
    || (Left(w1) == Left(w) && Phase(w1) == Phase(w) && |w1.open| < |w.open|)
  }

  lemma MoveShrinks(w: Spot)
    requires MoveOf(w).Go?
    ensures Shrinks(w, MoveOf(w).w) && MoveOf(w).w.s.text == w.s.text && MoveOf(w).w.s.load == w.s.load
  {
    if w.before {
      BeforeShrinks(w.s, w.open);
    } else {
      AfterShrinks(w.s, w.open);
    }
  }

  lemma BeforeShrinks(s: Port, open: seq<Mark>)
    requires BeforeDatum(s, open).Go?
    ensures var w1 := BeforeDatum(s, open).w;
            Shrinks(Spot(s, true, open), w1) && w1.s.text == s.text && w1.s.load == s.load
  {
    LexMoves(s);
    if s.token == COMMENT {
      SkipLineMoves(s.text, s.pos);
      LexMoves(GoTo(s, SkipLine(s.text, s.pos)));
    } else if s.token != END {
      AtomMovesOn(s);
    }
  }

  lemma AfterShrinks(s: Port, open: seq<Mark>)
    requires AfterDatum(s, open).Go?
    ensures var w1 := AfterDatum(s, open).w;
            Shrinks(Spot(s, false, open), w1) && w1.s.text == s.text && w1.s.load == s.load
  {
    LexMoves(s);
    ElementMoves(s);
    CloseMoves(LexElement(s));
    LexMoves(LexElement(s));
  }

  /** The tokens from here on, one after the other. */
  function Walk(w: Spot): Verdict
    decreases Left(w), Phase(w), |w.open|
  {
    match MoveOf(w)
    case Done(verdict) => verdict
    case Go(w1) =>
      MoveShrinks(w);
      Walk(w1)
  }

  // ---------------------------------------------------------------------------
  // The machine walks along
  // ---------------------------------------------------------------------------

  predicate Waits(op: Op) {
    op == RDLIST || op == RDDOT || IsQuotation(op)
  }

  function MarkOf(op: Op): Mark {
    if op == RDLIST then InList else if op == RDDOT then AfterDot else AfterSign
  }

  function Marks(dump: seq<Frame>): (open: seq<Mark>)
    ensures |open| == |dump|
  {
    seq(|dump|, i requires 0 <= i < |dump| => MarkOf(dump[i].op))
  }

  /** The machine is reading, with frames of the reader's on the dump only. */
  predicate Proper(m: Machine<Port>) {
    (m.op == RDSEXPR || Waits(m.op)) && forall i | 0 <= i < |m.dump| :: Waits(m.dump[i].op)
  }

  function View(m: Machine<Port>): Spot {
    if m.op == RDSEXPR then Spot(m.store, true, Marks(m.dump))
    else Spot(m.store, false, Marks(m.dump) + [MarkOf(m.op)])
  }

  /** The machine is where the walk is, or has stopped where the walk is complete. */
  predicate Follows(r: Eval<Status<Port>>, w: Spot) {
    match r
    case Got(Next(m)) => Proper(m) && View(m) == w
    case Got(Stop(_, s)) => w == Spot(s, false, [])
    case _ => false
  }

  lemma MarksSaved(dump: seq<Frame>, fr: Frame)
    ensures Marks(dump + [fr]) == Marks(dump) + [MarkOf(fr.op)]
  {
  }

  /** A return goes back to what is open. */
  lemma ReturnFollows(v: Value, dump: seq<Frame>, s: Port)
    requires forall i | 0 <= i < |dump| :: Waits(dump[i].op)
    ensures Follows(Got(Ret(v, dump, s)), Spot(s, false, Marks(dump)))
  {
    if dump != [] {
      var n := |dump| - 1;
      assert dump == dump[..n] + [dump[n]];
      MarksSaved(dump[..n], dump[n]);
    }
  }

  /** A frame is saved and a datum is to be read. */
  lemma SaveFollows(m: Machine<Port>, fr: Frame, m1: Machine<Port>)
    requires Proper(m) && Waits(fr.op) && m1.op == RDSEXPR && m1.dump == m.dump + [fr]
    ensures Follows(Got(Next(m1)), Spot(m1.store, true, Marks(m.dump) + [MarkOf(fr.op)]))
  {
    MarksSaved(m.dump, fr);
  }

  /** A step of the machine is a move of the walk, and an error where the walk breaks off. */
  predicate InStep(m: Machine<Port>) {
    var step := StepRead(Program(), m);
    match MoveOf(View(m))
    case Go(w1) => Follows(step, w1)
    case Done(verdict) => verdict == if step == Fault then Broken else NeverComplete
  }

  lemma DatumInStep(m: Machine<Port>)
    requires Proper(m) && m.op == RDSEXPR
    ensures InStep(m)
  {
    var s, x := m.store, Program();
    if s.token == END {
      ReturnFollows(EofObj, m.dump, s);
    } else if s.token == COMMENT {
      assert x.comment(s) == SkipComment(s);
    } else if s.token == OPEN {
      OpenInStep(m);
    } else {
      SignOrAtomInStep(m);
    }
  }

  lemma OpenInStep(m: Machine<Port>)
    requires Proper(m) && m.op == RDSEXPR && m.store.token == OPEN
    ensures InStep(m)
  {
    var s1 := Lex(m.store);
    assert Program().next(m.store) == s1;
    var fr := Frame(RDLIST, Nil, m.envir, Nil);
    if s1.token == CLOSE {
      ReturnFollows(Nil, m.dump, s1);
    } else {
      SaveFollows(m, fr, m.(store := Nested(s1, 1), dump := m.dump + [fr]));
    }
  }

  lemma SignOrAtomInStep(m: Machine<Port>)
    requires Proper(m) && m.op == RDSEXPR && m.store.token !in {END, COMMENT, OPEN}
    ensures InStep(m)
  {
    if m.store.token in {TICK, BACKTICK, COMMA, ATMARK} {
      OpenSignInStep(m);
    } else {
      AtomInStep(m);
    }
  }

  lemma OpenSignInStep(m: Machine<Port>)
    requires Proper(m) && m.op == RDSEXPR && m.store.token in {TICK, BACKTICK, COMMA, ATMARK}
    ensures InStep(m)
  {
    var s := m.store;
    assert Program().next(s) == Lex(s);
    var fr := Frame(Quoting(s.token), Nil, m.envir, Nil);
    SaveFollows(m, fr, m.(store := Lex(s), dump := m.dump + [fr]));
  }

  lemma AtomInStep(m: Machine<Port>)
    requires Proper(m) && m.op == RDSEXPR
    requires m.store.token !in {END, COMMENT, OPEN, TICK, BACKTICK, COMMA, ATMARK}
    ensures InStep(m)
  {
    var r := Atom(m.store);
    assert Program().atom(m.store) == r;
    if r.Got? {
      ReturnFollows(r.value.0, m.dump, r.value.1);
    }
  }

  lemma ListInStep(m: Machine<Port>)
    requires Proper(m) && m.op == RDLIST
    ensures InStep(m)
  {
    var s1, args, open := LexElement(m.store), Pair(m.value, m.args), View(m).open;
    assert open[..|open| - 1] == Marks(m.dump) && Top(open) == InList;
    ListSteps(m, s1, args);
    if s1.token == CLOSE {
      ReturnFollows(ReverseOnto(args, Nil), m.dump, CloseList(s1));
    } else {
      GoesOnInStep(m, s1, args);
    }
  }

  lemma ListSteps(m: Machine<Port>, s1: Port, args: Value)
    requires m.op == RDLIST && s1 == LexElement(m.store) && args == Pair(m.value, m.args)
    ensures StepRead(Program(), m) ==
      if s1.token == CLOSE then Got(Ret(ReverseOnto(args, Nil), m.dump, CloseList(s1)))
      else
        var (op, s2) := if s1.token == DOT then (RDDOT, Lex(s1)) else (RDLIST, s1);
        Got(Next(m.(op := RDSEXPR, args := args, store := s2, dump := m.dump + [Frame(op, args, m.envir, Nil)])))
  {
  }

  lemma GoesOnInStep(m: Machine<Port>, s1: Port, args: Value)
    requires Proper(m) && m.op == RDLIST && s1 == LexElement(m.store) && s1.token != CLOSE
    requires args == Pair(m.value, m.args)
    ensures InStep(m)
  {
    var open := View(m).open;
    assert open[..|open| - 1] == Marks(m.dump) && Top(open) == InList;
    ListSteps(m, s1, args);
    var (op, s2) := if s1.token == DOT then (RDDOT, Lex(s1)) else (RDLIST, s1);
    var fr := Frame(op, args, m.envir, Nil);
    SaveFollows(m, fr, m.(op := RDSEXPR, args := args, store := s2, dump := m.dump + [fr]));
  }

  lemma DotInStep(m: Machine<Port>)
    requires Proper(m) && m.op == RDDOT
    ensures InStep(m)
  {
    var open, s1 := View(m).open, Lex(m.store);
    assert open[..|open| - 1] == Marks(m.dump) && Top(open) == AfterDot;
    assert Program().next(m.store) == s1;
    ReturnFollows(ReverseOnto(m.args, m.value), m.dump, CloseDotted(m.store, s1));
  }

  lemma SignInStep(m: Machine<Port>)
    requires Proper(m) && IsQuotation(m.op)
    ensures InStep(m)
  {
    var open, v := View(m).open, Pair(Quotation(m.op), Pair(m.value, Nil));
    assert open[..|open| - 1] == Marks(m.dump) && Top(open) == AfterSign;
    SignReturns(m);
    ReturnFollows(v, m.dump, m.store);
  }

  lemma SignReturns(m: Machine<Port>)
    requires IsQuotation(m.op)
    ensures StepRead(Program(), m) == m.Return(Pair(Quotation(m.op), Pair(m.value, Nil)))
  {
  }

  lemma AllInStep(m: Machine<Port>)
    requires Proper(m)
    ensures InStep(m)
  {
    if m.op == RDSEXPR {
      DatumInStep(m);
    } else if m.op == RDLIST {
      ListInStep(m);
    } else if m.op == RDDOT {
      DotInStep(m);
    } else {
      SignInStep(m);
    }
  }

  // ---------------------------------------------------------------------------
  // What the walk tells
  // ---------------------------------------------------------------------------

  /** The machine ends in `k` steps as the walk does. */
  predicate EndsIn(m: Machine<Port>, k: nat, verdict: Verdict) {
    var end := After(Reading(Program()), m, k);
    if verdict == Broken then end == Fault else end.Got? && end.value.Stop?
  }

  lemma OneStepMore(m: Machine<Port>, m1: Machine<Port>, k: nat, verdict: Verdict)
    requires StepRead(Program(), m) == Got(Next(m1)) && EndsIn(m1, k, verdict)
    ensures EndsIn(m, k + 1, verdict)
  {
    Unroll(Reading(Program()), m, k + 1);
  }

  lemma LastStep(m: Machine<Port>, verdict: Verdict)
    requires var step := StepRead(Program(), m);
             if verdict == Broken then step == Fault else step.Got? && step.value.Stop?
    ensures EndsIn(m, 1, verdict)
  {
    Unroll(Reading(Program()), m, 1);
  }

  /** Where the walk comes to an end so does the machine. */
  lemma {:induction false} WalkEnds(m: Machine<Port>) returns (k: nat)
    requires Proper(m) && Walk(View(m)) != NeverComplete
    ensures EndsIn(m, k, Walk(View(m)))
    decreases Left(View(m)), Phase(View(m)), |View(m).open|
  {
    AllInStep(m);
    var w, step := View(m), StepRead(Program(), m);
    k := 1;
    if MoveOf(w).Go? && step.value.Next? {
      MoveShrinks(w);
      k := WalkEnds(step.value.m);
      OneStepMore(m, step.value.m, k, Walk(w));
      k := k + 1;
    } else {
      LastStep(m, Walk(w));
    }
  }

  /** The machine is in a list of which nothing more can come. */
  predicate Trapped(m: Machine<Port>) {
    && AtEnd(m.store) && !m.store.load
    && (m.op == RDLIST ||
        (m.op == RDSEXPR && m.store.token == END && m.dump != [] && m.dump[|m.dump| - 1].op == RDLIST))
  }

  lemma TrappedStays(m: Machine<Port>)
    requires Trapped(m)
    ensures var step := StepRead(Program(), m);
            step.Got? && step.value.Next? && Trapped(step.value.m)
  {
    EndStays(m.store);
    assert Program().element(m.store) == LexElement(m.store);
  }

  lemma {:induction false} TrappedForEver(m: Machine<Port>, k: nat)
    requires Trapped(m)
    ensures Going(Reading(Program()), m, k)
    decreases k
  {
    if k > 0 {
      TrappedStays(m);
      TrappedForEver(StepRead(Program(), m).value.m, k - 1);
    }
  }

  lemma {:induction false} WalkNeverEnds(m: Machine<Port>, k: nat)
    requires Proper(m) && Walk(View(m)) == NeverComplete
    ensures Going(Reading(Program()), m, k)
    decreases k
  {
    if k > 0 {
      AllInStep(m);
      var step := StepRead(Program(), m);
      if MoveOf(View(m)).Go? {
        assert step.Got? && step.value.Next?;
        WalkNeverEnds(step.value.m, k - 1);
      } else {
        TrappedHere(m);
        TrappedForEver(m, k);
      }
    }
  }

  lemma TrappedHere(m: Machine<Port>)
    requires Proper(m) && MoveOf(View(m)) == Done(NeverComplete)
    ensures Trapped(m)
  {
    var n := |m.dump|;
    assert m.op == RDSEXPR ==> View(m).open == Marks(m.dump);
    assert n > 0 ==> Marks(m.dump)[n - 1] == MarkOf(m.dump[n - 1].op);
  }

  /** The walk from the first token of a datum. */
  function Verdicts(s: Port): Verdict {
    Walk(Spot(s, true, []))
  }

  /** The same machine with nothing below it. */
  function Alone(m: Machine<Port>): Machine<Port> {
    m.(dump := [])
  }

  lemma AloneStops(m: Machine<Port>, k: nat)
    requires m.op == RDSEXPR && !Going(Reading(Program()), Alone(m), k)
    ensures !RunsForEver(Reading(Program()), m)
  {
    var f, a := Reading(Program()), Alone(m);
    ReadingDescribed(Program(), m);
    ReadingDescribed(Program(), a);
    RunsForEverIff(f, DatumAnswer(Program(), m.store), m);
    RunsForEverIff(f, DatumAnswer(Program(), m.store), a);
    if RunsForEver(f, a) {
      assert Over(f, a, k + 1, a.dump);
      GoingAfter(f, a, k);
      assert false;
    }
  }

  /** Reading goes on for ever exactly if the walk over the tokens comes, inside a list and before any
      error, to the end of a text that is not the load port's, or to a NUL in it. */
  lemma ReadsForEverIff(m: Machine<Port>)
    requires m.op == RDSEXPR
    ensures RunsForEver(Reading(Program()), m) <==> Verdicts(m.store) == NeverComplete
  {
    var f, a := Reading(Program()), Alone(m);
    assert View(a) == Spot(m.store, true, []);
    if Verdicts(m.store) == NeverComplete {
      forall k: nat ensures Over(f, a, k, a.dump) {
        forall j | 0 <= j < k ensures Going(f, a, j) && a.dump <= At(f, a, j).dump {
          WalkNeverEnds(a, j);
        }
      }
      ReadingDescribed(Program(), m);
      ReadingDescribed(Program(), a);
      RunsForEverIff(f, DatumAnswer(Program(), m.store), a);
      RunsForEverIff(f, DatumAnswer(Program(), m.store), m);
    } else {
      var k := WalkEnds(a);
      AloneStops(m, k);
    }
  }

  ghost predicate DescentFaults(x: Scanner, s: Port) {
    exists fuel: nat :: Datum(x, fuel, s) == Fault
  }

  lemma FailsWhen(x: Scanner, m: Machine<Port>)
    requires m.op == RDSEXPR
    ensures Fails(Reading(x), m) <==> DescentFaults(x, m.store)
  {
    ReadingDescribed(x, m);
    FailsIff(Reading(x), DatumAnswer(x, m.store), m);
    if fuel: nat :| DatumAnswer(x, m.store)(fuel) == Fault {
      assert Datum(x, fuel, m.store) == Fault;
    }
    if fuel: nat :| Datum(x, fuel, m.store) == Fault {
      assert DatumAnswer(x, m.store)(fuel) == Fault;
    }
  }

  /** How a run with an empty dump ends settles whether the descent has an error. */
  lemma OnlyOneEnd(x: Scanner, a: Machine<Port>, k: nat)
    requires a.op == RDSEXPR && a.dump == [] && !Going(Reading(x), a, k)
    ensures After(Reading(x), a, k) == Fault <==> DescentFaults(x, a.store)
  {
    FailsWhen(x, a);
    if After(Reading(x), a, k) == Fault {
      FirstFault(Reading(x), a, k);
    }
    if Fails(Reading(x), a) {
      var j: nat :| FailsAt(Reading(x), a, j);
      OneEnd(Reading(x), a, j, k);
    }
  }

  lemma {:induction false} FirstFault(f: Stepper<Port>, a: Machine<Port>, k: nat)
    requires a.dump == [] && After(f, a, k) == Fault
    ensures Fails(f, a)
    decreases k
  {
    if forall j | 0 <= j < k :: Going(f, a, j) {
      assert FailsAt(f, a, k);
    } else {
      var j :| 0 <= j < k && !Going(f, a, j);
      OneEnd(f, a, j, k);
      FirstFault(f, a, j);
    }
  }

  lemma ForEverNoFault(x: Scanner, m: Machine<Port>)
    requires m.op == RDSEXPR && RunsForEver(Reading(x), m)
    ensures !DescentFaults(x, m.store)
  {
    ReadingDescribed(x, m);
    RunsForEverIff(Reading(x), DatumAnswer(x, m.store), m);
    forall fuel: nat ensures Datum(x, fuel, m.store) == Timeout {
      assert DatumAnswer(x, m.store)(fuel) == Timeout;
    }
  }

  /** It ends with an error exactly if the walk breaks off ... */
  lemma ReadingFailsIff(m: Machine<Port>)
    requires m.op == RDSEXPR
    ensures Fails(Reading(Program()), m) <==> Verdicts(m.store) == Broken
  {
    var x, a := Program(), Alone(m);
    assert View(a) == Spot(m.store, true, []);
    FailsWhen(x, m);
    if Verdicts(m.store) == NeverComplete {
      ReadsForEverIff(m);
      ForEverNoFault(x, m);
    } else {
      var k := WalkEnds(a);
      OnlyOneEnd(x, a, k);
    }
  }

  /** ... and otherwise with a datum. */
  lemma ReadingReturnsIff(m: Machine<Port>)
    requires m.op == RDSEXPR
    ensures (exists o: Out<Port> :: Returns(Reading(Program()), m, o)) <==> Verdicts(m.store) == Complete
  {
    var x := Program();
    ReadingDescribed(x, m);
    ReadingFailsIff(m);
    ReadsForEverIff(m);
    FailsIff(Reading(x), DatumAnswer(x, m.store), m);
    RunsForEverIff(Reading(x), DatumAnswer(x, m.store), m);
    if o: Out<Port> :| Returns(Reading(x), m, o) {
      ReturnsIff(Reading(x), DatumAnswer(x, m.store), m, o);
      var fuel: nat :| DatumAnswer(x, m.store)(fuel) == Got(o);
      forall other: nat ensures DatumAnswer(x, m.store)(other) != Fault {
        MoreFuelSameDatum(x, m.store, fuel, other);
      }
    }
    if Verdicts(m.store) == Complete {
      var fuel: nat :| DatumAnswer(x, m.store)(fuel) != Timeout;
      var o := DatumAnswer(x, m.store)(fuel).value;
      ReturnsIff(Reading(x), DatumAnswer(x, m.store), m, o);
    }
  }

  /** Reading from the load port always comes to an end. */
  lemma {:induction false} LoadedEnds(w: Spot)
    requires w.s.load
    ensures Walk(w) != NeverComplete
    decreases Left(w), Phase(w), |w.open|
  {
    if MoveOf(w).Go? {
      MoveShrinks(w);
      LoadedEnds(MoveOf(w).w);
    }
  }

  lemma LoadPortReadingEnds(m: Machine<Port>)
    requires m.op == RDSEXPR && m.store.load
    ensures !RunsForEver(Reading(Program()), m)
  {
    LoadedEnds(Spot(m.store, true, []));
    ReadsForEverIff(m);
  }

  /** The shortest text that is read for ever. */
  lemma OpenParenthesisReadForEver(m: Machine<Port>)
    requires m.op == RDSEXPR && m.store == Lex(PortState("(", 0, END, 0, false))
    ensures RunsForEver(Reading(Program()), m)
  {
    LexesOpen(PortState("(", 0, END, 0, false));
    OpenAtEnd(m.store);
    ReadsForEverIff(m);
  }

  lemma OpenAtEnd(s: Port)
    requires s.token == OPEN && AtEnd(s) && !s.load
    ensures Verdicts(s) == NeverComplete
  {
    EndStays(s);
    var w1 := Spot(Nested(Lex(s), 1), true, [InList]);
    assert [] + [InList] == [InList];
    assert MoveOf(Spot(s, true, [])) == Go(w1);
    assert MoveOf(w1) == Done(NeverComplete);
    assert Walk(w1) == NeverComplete;
  }

  lemma LexesOpen(s: Port)
    requires s == PortState("(", 0, END, 0, false)
    ensures Lex(s) == s.(token := OPEN, pos := 1) && AtEnd(Lex(s))
  {
    assert SkipSpace("(", 0) == 0;
  }
}
