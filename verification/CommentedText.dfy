/** Texts of data with comments and blanks between their parts, and exactly which of them the reader
    understands. */
module CommentedText {
  import opened Registers
  import opened MachineRuns
  import opened Adequacy
  import opened Lexer
  import opened AtomRoundTrip
  import opened Reader
  import opened Printer
  import opened Parsing
  import opened Layouts
  import opened Comments

  /** How a datum without comments is written; for which data that is good; whether its text ends by itself;
      and where the reader is after a text that ends at a position. */
  datatype Style = Style(
    text: Value -> string,
    good: Value -> bool,
    ended: Value -> bool,
    end: (Value, string, nat) -> nat)

  /** Comments, one after the other. */
  type Lines = seq<(bool, string)>

  /** A datum as a text shows it: as it is written; behind blanks or a comment; behind a quotation sign; or
      as a list, with comments where there may be any. */
  datatype Doc =
    | Written(v: Value)
    | Spaced(blanks: string, d: Doc)
    | Commented(bang: bool, line: string, d: Doc)
    | Quoted(sign: Value, d: Doc)
    | Empty(lines: Lines)
    | Listed(first: Doc, rest: Others)

  datatype Others =
    | Closed(lines: Lines)
    | More(d: Doc, rest: Others)
    | Dotted(before: Lines, d: Doc, after: Lines)

  function LinesText(lines: Lines): string {
    if lines == [] then "" else CommentLine(lines[0].0, lines[0].1) + LinesText(lines[1..])
  }

  function Show(w: Style, d: Doc): string {
    match d
    case Written(v) => w.text(v)
    case Spaced(blanks, d1) => blanks + Show(w, d1)
    case Commented(bang, line, d1) => CommentLine(bang, line) + Show(w, d1)
    case Quoted(sign, d1) => Sign(sign) + Show(w, d1)
    case Empty(lines) => "(" + (LinesText(lines) + ")")
    case Listed(first, rest) => "(" + (Show(w, first) + ShowRest(w, rest))
  }

  function ShowRest(w: Style, r: Others): string {
    match r
    case Closed(lines) => Gap(lines) + ")"
    case More(d, rest) => " " + (Show(w, d) + ShowRest(w, rest))
    case Dotted(before, d, after) => " " + (LinesText(before) + (". " + (Show(w, d) + (Gap(after) + ")"))))
  }

  /** Comments behind an element, with a space before them. */
  function Gap(lines: Lines): string {
    if lines == [] then "" else " " + LinesText(lines)
  }

  /** The datum. */
  function Of(d: Doc): Value {
    match d
    case Written(v) => v
    case Spaced(_, d1) => Of(d1)
    case Commented(_, _, d1) => Of(d1)
    case Quoted(sign, d1) => Pair(sign, Pair(Of(d1), Nil))
    case Empty(_) => Nil
    case Listed(first, rest) => Pair(Of(first), OfRest(rest))
  }

  function OfRest(r: Others): Value {
    match r
    case Closed(_) => Nil
    case More(d, rest) => Pair(Of(d), OfRest(rest))
    case Dotted(_, d, _) => Of(d)
  }

  predicate PlainLines(lines: Lines) {
    forall i | 0 <= i < |lines| :: PlainLine(lines[i].1)
  }

  /** What follows a comma does not make it another sign. */
  predicate Apart(t: string, p: nat) {
    p < |t| && 0 < t[p] as int < 255 && t[p] != '@'
  }

  /** The parts are what they are meant to be. */
  predicate Good(w: Style, d: Doc) {
    match d
    case Written(v) => w.good(v)
    case Spaced(blanks, d1) => Blank(blanks) && Good(w, d1)
    case Commented(_, line, d1) => PlainLine(line) && Good(w, d1)
    case Quoted(sign, d1) =>
      Sign(sign) != "" && Good(w, d1) && (sign == Sym("unquote") ==> Apart(Show(w, d1), 0))
    case Empty(lines) => PlainLines(lines)
    case Listed(first, rest) => Good(w, first) && GoodRest(w, rest)
  }

  predicate GoodRest(w: Style, r: Others) {
    match r
    case Closed(lines) => PlainLines(lines)
    case More(d, rest) => Good(w, d) && GoodRest(w, rest)
    case Dotted(before, d, after) => PlainLines(before) && Good(w, d) && PlainLines(after)
  }

  /** There is no comment in an empty list and none behind the datum after a dot; and there is one at most
      before a dot and before the end of a list. */
  predicate Understood(d: Doc) {
    match d
    case Written(_) => true
    case Spaced(_, d1) => Understood(d1)
    case Commented(_, _, d1) => Understood(d1)
    case Quoted(_, d1) => Understood(d1)
    case Empty(lines) => lines == []
    case Listed(first, rest) => Understood(first) && RestUnderstood(rest)
  }

  predicate RestUnderstood(r: Others) {
    match r
    case Closed(lines) => |lines| <= 1
    case More(d, rest) => Understood(d) && RestUnderstood(rest)
    case Dotted(before, d, after) => |before| <= 1 && Understood(d) && after == []
  }

  /** How much fuel the descent takes. */
  function Weight(d: Doc): nat {
    match d
    case Written(v) => Size(v)
    case Spaced(_, d1) => 1 + Weight(d1)
    case Commented(_, _, d1) => 1 + Weight(d1)
    case Quoted(_, d1) => 2 + Weight(d1)
    case Empty(lines) => 3 + |lines|
    case Listed(first, rest) => 1 + Weight(first) + RestWeight(rest)
  }

  function RestWeight(r: Others): nat {
    match r
    case Closed(lines) => 3 + |lines|
    case More(d, rest) => 1 + Weight(d) + RestWeight(rest)
    case Dotted(before, d, after) => 4 + |before| + Weight(d)
  }

  /** Nothing that may follow can run on from the end of the text. */
  predicate Ended(w: Style, d: Doc) {
    match d
    case Written(v) => w.ended(v)
    case Spaced(_, d1) => Ended(w, d1)
    case Commented(_, _, d1) => Ended(w, d1)
    case Quoted(_, d1) => Ended(w, d1)
    case _ => true
  }

  /** Where the reader is after a text that ends at `q`. */
  function DocEnd(w: Style, d: Doc, t: string, q: nat): nat {
    match d
    case Written(v) => w.end(v, t, q)
    case Spaced(_, d1) => DocEnd(w, d1, t, q)
    case Commented(_, _, d1) => DocEnd(w, d1, t, q)
    case Quoted(_, d1) => DocEnd(w, d1, t, q)
    case Empty(_) => q
    case Listed(_, rest) => RestEnd(w, rest, t, q)
  }

  /** After a closing parenthesis a newline is swallowed. */
  function ListEnd(t: string, q: nat): nat {
    if Inchar(t, q).0 == '\n' as int then q + 1 else Peeked(t, q)
  }

  function RestEnd(w: Style, r: Others, t: string, q: nat): nat {
    match r
    case Closed(_) => ListEnd(t, q)
    case More(_, rest) => RestEnd(w, rest, t, q)
    case Dotted(_, _, _) => q
  }

  /** The text is next, and what follows it does not run on from it. */
  predicate ComesNext(w: Style, d: Doc, s: Port) {
    Spans(s.text, s.pos, Show(w, d)) && (Ended(w, d) || WordEnd(s.text, s.pos + |Show(w, d)|))
  }

  /** What is read: the datum if the comments are where they may be, and otherwise an error. */
  predicate Told(r: Eval<Out<Port>>, ok: bool, v: Value, s: Port, q: nat, nesting: int) {
    if ok then Reads(r, v, s, q, nesting) else r == Fault
  }

  // ---------------------------------------------------------------------------
  // What is needed of the scanner
  // ---------------------------------------------------------------------------

  predicate CommentFact(x: Scanner, bang: bool, line: string, s: Port) {
    PlainLine(line) && Spans(s.text, s.pos, CommentLine(bang, line)) ==>
      var s1 := GoTo(s, s.pos + |CommentLine(bang, line)|);
      x.next(s).token == COMMENT && x.comment(x.next(s)) == x.next(s1) && x.element(s) == x.next(s1)
  }

  predicate SpaceFact(x: Scanner, blanks: string, s: Port) {
    Blank(blanks) && Spans(s.text, s.pos, blanks) ==>
      var s1 := GoTo(s, s.pos + |blanks|);
      x.next(s) == x.next(s1) && x.element(s) == x.element(s1)
  }

  predicate SignedFact(x: Scanner, sign: Value, s: Port) {
    Sign(sign) != "" && Spans(s.text, s.pos, Sign(sign))
    && (sign == Sym("unquote") ==> Apart(s.text, s.pos + 1)) ==>
      var token := x.next(s).token;
      IsQuoteToken(token) && Quotation(Quoting(token)) == sign && x.next(s) == GoTo(s, s.pos + |Sign(sign)|).(token := token)
  }

  predicate OpenedFact(x: Scanner, s: Port) {
    Sees(s, '(') ==> x.next(s) == GoTo(s, s.pos + 1).(token := OPEN)
  }

  predicate ClosedFact(x: Scanner, s: Port) {
    Sees(s, ')') ==>
      && x.next(s) == GoTo(s, s.pos + 1).(token := CLOSE) && x.element(s) == x.next(s) && x.atom(x.next(s)) == Fault
      && Stands(x.closed(x.next(s)), s, ListEnd(s.text, s.pos + 1), s.nesting - 1)
  }

  predicate PointFact(x: Scanner, s: Port) {
    Spans(s.text, s.pos, ". ") ==>
      x.next(s) == GoTo(s, s.pos + 2).(token := DOT) && x.element(s) == x.next(s) && x.atom(x.next(s)) == Fault
  }

  predicate PlainFact(x: Scanner, s: Port) {
    && (x.next(s).token != COMMENT ==> x.element(s) == x.next(s))
    && x.next(Nested(s, 1)) == Nested(x.next(s), 1)
  }

  ghost predicate Lexes(x: Scanner) {
    && (forall bang, line, s: Port :: CommentFact(x, bang, line, s))
    && (forall blanks, s: Port :: SpaceFact(x, blanks, s))
    && (forall sign, s: Port :: SignedFact(x, sign, s))
    && (forall s: Port :: OpenedFact(x, s))
    && (forall s: Port :: ClosedFact(x, s))
    && (forall s: Port :: PointFact(x, s))
    && (forall s: Port :: PlainFact(x, s))
  }

  /** A datum that is written well is read back. */
  predicate ReadFact(x: Scanner, w: Style, v: Value, fuel: nat, s: Port) {
    w.good(v) && Spans(s.text, s.pos, w.text(v)) && (w.ended(v) || WordEnd(s.text, s.pos + |w.text(v)|)) ==>
      && IsStart(x.next(s).token)
      && (fuel >= Size(v) ==>
            Reads(Datum(x, fuel, x.next(s)), v, s, w.end(v, s.text, s.pos + |w.text(v)|), s.nesting))
  }

  predicate InsideFact(w: Style, v: Value, t: string, q: nat) {
    q < |t| && (t[q] == ' ' || t[q] == ')') ==> w.end(v, t, q) == q
  }

  ghost predicate Styled(x: Scanner, w: Style) {
    && (forall v, fuel: nat, s: Port :: ReadFact(x, w, v, fuel, s))
    && (forall v, t: string, q: nat :: InsideFact(w, v, t, q))
  }

  // ---------------------------------------------------------------------------
  // Ends and beginnings
  // ---------------------------------------------------------------------------

  predicate Inside(t: string, q: nat) {
    q < |t| && (t[q] == ' ' || t[q] == ')')
  }

  lemma InsideEnds(t: string, q: nat)
    requires Inside(t, q)
    ensures WordEnd(t, q) && ListEnd(t, q) == q
  {
  }

  lemma {:induction false} DocEndInside(x: Scanner, w: Style, d: Doc, t: string, q: nat)
    requires Styled(x, w) && Inside(t, q)
    ensures DocEnd(w, d, t, q) == q
    decreases d
  {
    match d
    case Written(v) => assert InsideFact(w, v, t, q);
    case Spaced(_, d1) => DocEndInside(x, w, d1, t, q);
    case Commented(_, _, d1) => DocEndInside(x, w, d1, t, q);
    case Quoted(_, d1) => DocEndInside(x, w, d1, t, q);
    case Empty(_) =>
    case Listed(_, rest) => RestEndInside(w, rest, t, q);
  }

  lemma {:induction false} RestEndInside(w: Style, r: Others, t: string, q: nat)
    requires Inside(t, q)
    ensures RestEnd(w, r, t, q) == q
    decreases r
  {
    InsideEnds(t, q);
    if r.More? {
      RestEndInside(w, r.rest, t, q);
    }
  }

  /** What follows an element sets it off. */
  lemma RestBegins(w: Style, r: Others, t: string, q: nat)
    requires Spans(t, q, ShowRest(w, r))
    ensures Inside(t, q)
  {
    SpansAt(t, q, ShowRest(w, r), 0);
  }

  lemma ElementNext(x: Scanner, w: Style, d: Doc, more: string, s: Port)
    requires Styled(x, w) && Spans(s.text, s.pos, Show(w, d) + more) && more != "" && (more[0] == ' ' || more[0] == ')')
    ensures var q := s.pos + |Show(w, d)|;
            ComesNext(w, d, s) && DocEnd(w, d, s.text, q) == q && Spans(s.text, q, more)
  {
    SpansPart(s.text, s.pos, Show(w, d), more);
    var q := s.pos + |Show(w, d)|;
    SpansAt(s.text, q, more, 0);
    InsideEnds(s.text, q);
    DocEndInside(x, w, d, s.text, q);
  }

  lemma SpacedNext(x: Scanner, w: Style, blanks: string, d: Doc, s: Port)
    requires Lexes(x) && Blank(blanks) && ComesNext(w, Spaced(blanks, d), s)
    ensures Spans(s.text, s.pos, blanks) && ComesNext(w, d, GoTo(s, s.pos + |blanks|))
    ensures x.next(s) == x.next(GoTo(s, s.pos + |blanks|)) && x.element(s) == x.element(GoTo(s, s.pos + |blanks|))
  {
    SpansPart(s.text, s.pos, blanks, Show(w, d));
    assert SpaceFact(x, blanks, s);
  }

  lemma CommentedNext(x: Scanner, w: Style, bang: bool, line: string, d: Doc, s: Port)
    requires Lexes(x) && PlainLine(line) && ComesNext(w, Commented(bang, line, d), s)
    ensures var q := s.pos + |CommentLine(bang, line)|;
            && q <= |s.text| && ComesNext(w, d, GoTo(s, q)) && x.next(s).token == COMMENT
            && x.comment(x.next(s)) == x.next(GoTo(s, q)) && x.element(s) == x.next(GoTo(s, q))
  {
    SpansPart(s.text, s.pos, CommentLine(bang, line), Show(w, d));
    assert CommentFact(x, bang, line, s);
  }

  lemma QuotedNext(x: Scanner, w: Style, sign: Value, d: Doc, s: Port)
    requires Lexes(x) && Good(w, Quoted(sign, d)) && ComesNext(w, Quoted(sign, d), s)
    ensures var s1 := x.next(s);
            && IsQuoteToken(s1.token) && Quotation(Quoting(s1.token)) == sign
            && Stands(s1, s, s.pos + |Sign(sign)|, s.nesting) && ComesNext(w, d, s1)
  {
    SpansPart(s.text, s.pos, Sign(sign), Show(w, d));
    SignApart(sign, Show(w, d), s);
    SignedNext(x, sign, s);
  }

  lemma SignApart(sign: Value, more: string, s: Port)
    requires sign == Sym("unquote") ==> Apart(more, 0)
    requires Spans(s.text, s.pos + |Sign(sign)|, more)
    ensures sign == Sym("unquote") ==> Apart(s.text, s.pos + 1)
  {
    if sign == Sym("unquote") {
      SpansAt(s.text, s.pos + 1, more, 0);
    }
  }

  lemma SignedNext(x: Scanner, sign: Value, s: Port)
    requires Lexes(x) && Sign(sign) != "" && Spans(s.text, s.pos, Sign(sign))
    requires sign == Sym("unquote") ==> Apart(s.text, s.pos + 1)
    ensures var s1 := x.next(s);
            && IsQuoteToken(s1.token) && Quotation(Quoting(s1.token)) == sign
            && Stands(s1, s, s.pos + |Sign(sign)|, s.nesting)
  {
    assert SignedFact(x, sign, s);
  }

  /** The first token of a text: that of a datum, or a comment. */
  lemma {:induction false} FirstTokenOf(x: Scanner, w: Style, d: Doc, s: Port)
    requires Lexes(x) && Styled(x, w) && Good(w, d) && ComesNext(w, d, s)
    ensures IsStart(x.next(s).token) || x.next(s).token == COMMENT
    decreases d
  {
    match d
    case Written(v) => assert ReadFact(x, w, v, 0, s);
    case Spaced(blanks, d1) =>
      SpacedNext(x, w, blanks, d1, s);
      FirstTokenOf(x, w, d1, GoTo(s, s.pos + |blanks|));
    case Commented(bang, line, d1) => CommentedNext(x, w, bang, line, d1, s);
    case Quoted(sign, d1) => QuotedNext(x, w, sign, d1, s);
    case _ =>
      SpansAt(s.text, s.pos, Show(w, d), 0);
      assert OpenedFact(x, s);
  }

  /** The token after an element is that of what follows, without the first comment. */
  lemma {:induction false} WithoutComment(x: Scanner, w: Style, d: Doc, s: Port) returns (d1: Doc, s1: Port)
    requires Lexes(x) && Styled(x, w) && Good(w, d) && ComesNext(w, d, s)
    ensures x.element(s) == x.next(s1) && Stands(s1, s, s1.pos, s.nesting)
    ensures Good(w, d1) && ComesNext(w, d1, s1) && s1.pos + |Show(w, d1)| == s.pos + |Show(w, d)|
    ensures Of(d1) == Of(d) && (Understood(d1) <==> Understood(d)) && Weight(d1) <= Weight(d)
    decreases d
  {
    match d
    case Spaced(blanks, d2) =>
      SpacedNext(x, w, blanks, d2, s);
      d1, s1 := WithoutComment(x, w, d2, GoTo(s, s.pos + |blanks|));
    case Commented(bang, line, d2) =>
      CommentedNext(x, w, bang, line, d2, s);
      d1, s1 := d2, GoTo(s, s.pos + |CommentLine(bang, line)|);
    case _ =>
      d1, s1 := d, s;
      NotAComment(x, w, d, s);
      assert PlainFact(x, s);
  }

  lemma NotAComment(x: Scanner, w: Style, d: Doc, s: Port)
    requires Lexes(x) && Styled(x, w) && Good(w, d) && ComesNext(w, d, s) && !d.Spaced? && !d.Commented?
    ensures x.next(s).token != COMMENT
  {
    if d.Written? {
      assert ReadFact(x, w, d.v, 0, s);
    } else if d.Quoted? {
      QuotedNext(x, w, d.sign, d.d, s);
    } else {
      SpansAt(s.text, s.pos, Show(w, d), 0);
      assert OpenedFact(x, s);
    }
  }

  // ---------------------------------------------------------------------------
  // Comments before whatever follows
  // ---------------------------------------------------------------------------

  lemma AfterComment(x: Scanner, fuel: nat, s: Port)
    requires fuel > 0 && s.token == COMMENT
    ensures Datum(x, fuel, s) == Datum(x, fuel - 1, x.comment(s))
  {
  }

  lemma OneLineSkipped(x: Scanner, bang: bool, line: string, fuel: nat, s: Port)
    requires Lexes(x) && PlainLine(line) && Spans(s.text, s.pos, CommentLine(bang, line)) && fuel > 0
    ensures Datum(x, fuel, x.next(s)) == Datum(x, fuel - 1, x.next(GoTo(s, s.pos + |CommentLine(bang, line)|)))
  {
    assert CommentFact(x, bang, line, s);
    AfterComment(x, fuel, x.next(s));
  }

  /** What reading a datum gives, by the fuel and from a token on. */
  type Giver = (nat, Port) -> Eval<Out<Port>>

  predicate LineFact(x: Scanner, d: Giver, bang: bool, line: string, fuel: nat, s: Port) {
    PlainLine(line) && Spans(s.text, s.pos, CommentLine(bang, line)) && fuel > 0 ==>
      d(fuel, x.next(s)) == d(fuel - 1, x.next(GoTo(s, s.pos + |CommentLine(bang, line)|)))
  }

  /** They take fuel, and nothing else. */
  lemma {:induction false} LinesSkippedBy(x: Scanner, d: Giver, lines: Lines, fuel: nat, s: Port, q: nat)
    requires (forall bang, line, fuel, s: Port :: LineFact(x, d, bang, line, fuel, s))
    requires PlainLines(lines) && Spans(s.text, s.pos, LinesText(lines)) && fuel >= |lines|
    requires q == s.pos + |LinesText(lines)|
    ensures d(fuel, x.next(s)) == d(fuel - |lines|, x.next(GoTo(s, q)))
    decreases |lines|
  {
    if lines == [] {
      assert GoTo(s, q) == s;
    } else {
      var (bang, line) := lines[0];
      SpansPart(s.text, s.pos, CommentLine(bang, line), LinesText(lines[1..]));
      assert LineFact(x, d, bang, line, fuel, s);
      LinesSkippedBy(x, d, lines[1..], fuel - 1, GoTo(s, s.pos + |CommentLine(bang, line)|), q);
    }
  }

  lemma LinesSkipped(x: Scanner, lines: Lines, fuel: nat, s: Port, q: nat)
    requires Lexes(x) && PlainLines(lines) && Spans(s.text, s.pos, LinesText(lines)) && fuel >= |lines|
    requires q == s.pos + |LinesText(lines)|
    ensures Datum(x, fuel, x.next(s)) == Datum(x, fuel - |lines|, x.next(GoTo(s, q)))
  {
    var d := (fuel: nat, s: Port) => Datum(x, fuel, s);
    forall bang, line, fuel, s: Port ensures LineFact(x, d, bang, line, fuel, s) {
      if PlainLine(line) && Spans(s.text, s.pos, CommentLine(bang, line)) && fuel > 0 {
        OneLineSkipped(x, bang, line, fuel, s);
      }
    }
    LinesSkippedBy(x, d, lines, fuel, s, q);
  }

  /** Behind an element: the first comment does not count, and what is next is a further comment or what
      follows the comments. */
  lemma FirstLine(x: Scanner, lines: Lines, more: string, s: Port) returns (s1: Port)
    requires Lexes(x) && PlainLines(lines) && lines != [] && Spans(s.text, s.pos, " " + (LinesText(lines) + more))
    ensures x.element(s) == x.next(s1) && Stands(s1, s, s1.pos, s.nesting)
    ensures Spans(s1.text, s1.pos, LinesText(lines[1..]) + more)
    ensures s1.pos + |LinesText(lines[1..])| == s.pos + 1 + |LinesText(lines)|
    ensures |lines| > 1 ==> x.next(s1).token == COMMENT
  {
    var s0 := AfterSpace(x, LinesText(lines) + more, s);
    LineParts(lines, more, s.text, s0.pos);
    assert CommentFact(x, lines[0].0, lines[0].1, s0);
    s1 := GoTo(s0, s0.pos + |CommentLine(lines[0].0, lines[0].1)|);
    if |lines| > 1 {
      NextLine(x, lines[1..], more, s1);
    }
  }

  lemma LineParts(lines: Lines, more: string, t: string, p: nat)
    requires lines != [] && Spans(t, p, LinesText(lines) + more)
    ensures var line, others := CommentLine(lines[0].0, lines[0].1), LinesText(lines[1..]);
            && |LinesText(lines)| == |line| + |others|
            && Spans(t, p, line) && Spans(t, p + |line|, others + more)
  {
    var line, others := CommentLine(lines[0].0, lines[0].1), LinesText(lines[1..]);
    Assoc(line, others, more);
    SpansPart(t, p, line, others + more);
  }

  lemma NextLine(x: Scanner, lines: Lines, more: string, s: Port)
    requires Lexes(x) && PlainLines(lines) && lines != [] && Spans(s.text, s.pos, LinesText(lines) + more)
    ensures x.next(s).token == COMMENT
  {
    LineParts(lines, more, s.text, s.pos);
    assert CommentFact(x, lines[0].0, lines[0].1, s);
  }

  /** Where a datum is to begin there is a closing parenthesis or a dot. */
  lemma NoDatum(x: Scanner, fuel: nat, s: Port)
    requires fuel > 0 && (s.token == CLOSE || s.token == DOT) && x.atom(s) == Fault
    ensures Datum(x, fuel, s) == Fault
  {
  }

  lemma NoElement(x: Scanner, fuel: nat, s: Port)
    requires fuel > 0 && Datum(x, fuel - 1, s) == Fault
    ensures Elements(x, fuel, s) == Fault
  {
  }

  lemma RestIsElements(x: Scanner, fuel: nat, s: Port)
    requires fuel > 0 && s.token != CLOSE && s.token != DOT
    ensures Rest(x, fuel, s) == Elements(x, fuel, s)
  {
  }

  /** Two comments or more, and then no datum. */
  lemma TooManyLines(x: Scanner, lines: Lines, more: string, fuel: nat, s: Port)
    requires Lexes(x) && PlainLines(lines) && |lines| > 1 && fuel > |lines| + 1
    requires Spans(s.text, s.pos, " " + (LinesText(lines) + more))
    requires more != "" && (more[0] == ')' || (|more| > 1 && more[..2] == ". "))
    ensures Rest(x, fuel, x.element(s)) == Fault
  {
    var s1 := FirstLine(x, lines, more, s);
    SpansPart(s1.text, s1.pos, LinesText(lines[1..]), more);
    LinesSkipped(x, lines[1..], fuel - 1, s1, s1.pos + |LinesText(lines[1..])|);
    var s2 := GoTo(s1, s1.pos + |LinesText(lines[1..])|);
    StopsHere(x, more, s2);
    NoDatum(x, fuel - |lines|, x.next(s2));
    NoElement(x, fuel, x.next(s1));
    RestIsElements(x, fuel, x.next(s1));
  }

  lemma StopsHere(x: Scanner, more: string, s: Port)
    requires Lexes(x) && Spans(s.text, s.pos, more) && more != "" && (more[0] == ')' || (|more| > 1 && more[..2] == ". "))
    ensures (x.next(s).token == CLOSE || x.next(s).token == DOT) && x.atom(x.next(s)) == Fault
  {
    SpansAt(s.text, s.pos, more, 0);
    if more[0] == ')' {
      assert ClosedFact(x, s);
    } else {
      assert more == ". " + more[2..];
      SpansPart(s.text, s.pos, ". ", more[2..]);
      assert PointFact(x, s);
    }
  }

  // ---------------------------------------------------------------------------
  // How results are put together
  // ---------------------------------------------------------------------------

  /** The first element and the others, which are read from where it ends. */
  lemma ElementsGive(x: Scanner, fuel: nat, s1: Port, s: Port, ok: bool, v: Value, q: nat, okRest: bool, vs: Value, q1: nat)
    requires fuel > 0 && Told(Datum(x, fuel - 1, s1), ok, v, s, q, s.nesting)
    requires ok ==>
      var s2 := Datum(x, fuel - 1, s1).value.s;
      Told(Rest(x, fuel - 1, x.element(s2)), okRest, vs, s2, q1, s2.nesting - 1)
    ensures Told(Elements(x, fuel, s1), ok && okRest, Pair(v, vs), s, q1, s.nesting - 1)
  {
  }

  /** What is behind a dot, and the closing parenthesis. */
  lemma DotGives(x: Scanner, fuel: nat, s1: Port, s: Port, ok: bool, v: Value, q: nat, okEnd: bool)
    requires fuel > 0 && s1.token == DOT && Stands(s1, s, s1.pos, s.nesting)
    requires Told(Datum(x, fuel - 1, x.next(s1)), ok, v, s1, q, s1.nesting)
    requires ok ==>
      var s2 := Datum(x, fuel - 1, x.next(s1)).value.s;
      if okEnd then s2.pos < |s2.text| && x.next(s2) == GoTo(s2, s2.pos + 1).(token := CLOSE) else x.next(s2).token != CLOSE
    ensures Told(Rest(x, fuel, s1), ok && okEnd, v, s, q + 1, s.nesting - 1)
  {
  }

  lemma QuoteGives(x: Scanner, fuel: nat, s1: Port, s: Port, ok: bool, v: Value, q: nat)
    requires fuel > 0 && IsQuoteToken(s1.token) && Stands(s1, s, s1.pos, s.nesting)
    requires IsStart(x.next(s1).token) || x.next(s1).token == COMMENT
    requires Told(Datum(x, fuel - 1, x.next(s1)), ok, v, s1, q, s1.nesting)
    ensures Told(Datum(x, fuel, s1), ok, Pair(Quotation(Quoting(s1.token)), Pair(v, Nil)), s, q, s.nesting)
  {
    QuoteIsDatum(x, fuel, s1);
  }

  lemma OpensList(x: Scanner, fuel: nat, s: Port)
    requires Lexes(x) && fuel > 0 && Sees(s, '(')
    ensures var s1 := GoTo(s, s.pos + 1).(token := OPEN);
            && x.next(s) == s1
            && (x.next(s1).token == CLOSE ==> Datum(x, fuel, s1) == Got(Out(Nil, x.next(s1), 0)))
            && (x.next(s1).token != CLOSE && x.next(s1).token != DOT ==>
                  Datum(x, fuel, s1) == Elements(x, fuel, x.next(Nested(s1, 1))))
  {
    assert OpenedFact(x, s);
    assert PlainFact(x, GoTo(s, s.pos + 1).(token := OPEN));
  }

  lemma StopsAtClose(x: Scanner, s: Port)
    requires Lexes(x) && Spans(s.text, s.pos, ")")
    ensures x.next(s) == GoTo(s, s.pos + 1).(token := CLOSE) && x.element(s) == x.next(s) && x.atom(x.next(s)) == Fault
    ensures Stands(x.closed(x.next(s)), s, ListEnd(s.text, s.pos + 1), s.nesting - 1)
  {
    SpansAt(s.text, s.pos, ")", 0);
    assert ClosedFact(x, s);
  }

  /** The token after an opening parenthesis belongs to what is in the list. */
  lemma ListGives(x: Scanner, fuel: nat, s: Port, s2: Port, ok: bool, v: Value, q: nat)
    requires Lexes(x) && fuel > 0 && Sees(s, '(') && s2 == Nested(GoTo(s, s.pos + 1).(token := OPEN), 1)
    requires IsStart(x.next(s2).token) || x.next(s2).token == COMMENT
    requires Told(Elements(x, fuel, x.next(s2)), ok, v, s2, q, s2.nesting - 1)
    ensures Told(Datum(x, fuel, x.next(s)), ok, v, s, q, s.nesting)
  {
    OpensList(x, fuel, s);
    assert PlainFact(x, GoTo(s, s.pos + 1).(token := OPEN));
  }

  // ---------------------------------------------------------------------------
  // Ends of lists
  // ---------------------------------------------------------------------------

  lemma EmptyFaults(x: Scanner, fuel: nat, lines: Lines, s: Port)
    requires Lexes(x) && PlainLines(lines) && lines != [] && fuel >= 3 + |lines|
    requires Spans(s.text, s.pos, LinesText(lines) + ")")
    ensures x.next(s).token == COMMENT && Elements(x, fuel, x.next(s)) == Fault
  {
    NextLine(x, lines, ")", s);
    LinesThenClose(x, fuel - 1, lines, s);
    NoElement(x, fuel, x.next(s));
  }

  lemma LinesThenClose(x: Scanner, fuel: nat, lines: Lines, s: Port)
    requires Lexes(x) && PlainLines(lines) && fuel >= 2 + |lines| && Spans(s.text, s.pos, LinesText(lines) + ")")
    ensures Datum(x, fuel, x.next(s)) == Fault
  {
    SpansPart(s.text, s.pos, LinesText(lines), ")");
    LinesSkipped(x, lines, fuel, s, s.pos + |LinesText(lines)|);
    var s3 := GoTo(s, s.pos + |LinesText(lines)|);
    StopsAtClose(x, s3);
    NoDatum(x, fuel - |lines|, x.next(s3));
  }

  lemma EmptyTold(x: Scanner, fuel: nat, lines: Lines, s: Port)
    requires Lexes(x) && PlainLines(lines) && fuel >= 3 + |lines|
    requires Spans(s.text, s.pos, "(" + (LinesText(lines) + ")"))
    ensures Told(Datum(x, fuel, x.next(s)), lines == [], Nil, s, s.pos + 2 + |LinesText(lines)|, s.nesting)
  {
    SpansAt(s.text, s.pos, "(" + (LinesText(lines) + ")"), 0);
    SpansPart(s.text, s.pos, "(", LinesText(lines) + ")");
    if lines == [] {
      assert "" + ")" == ")";
      OpensList(x, fuel, s);
      StopsAtClose(x, GoTo(s, s.pos + 1).(token := OPEN));
    } else {
      var s2 := Nested(GoTo(s, s.pos + 1).(token := OPEN), 1);
      EmptyFaults(x, fuel, lines, s2);
      ListGives(x, fuel, s, s2, false, Nil, 0);
    }
  }

  lemma ClosedTold(x: Scanner, fuel: nat, lines: Lines, s: Port)
    requires Lexes(x) && PlainLines(lines) && Spans(s.text, s.pos, Gap(lines) + ")") && fuel >= 3 + |lines|
    ensures Told(Rest(x, fuel, x.element(s)), |lines| <= 1, Nil, s, ListEnd(s.text, s.pos + |Gap(lines)| + 1), s.nesting - 1)
  {
    if lines == [] {
      assert "" + ")" == ")";
      StopsAtClose(x, s);
    } else {
      Assoc(" ", LinesText(lines), ")");
      if |lines| == 1 {
        var s1 := FirstLine(x, lines, ")", s);
        assert "" + ")" == ")";
        StopsAtClose(x, s1);
      } else {
        TooManyLines(x, lines, ")", fuel, s);
      }
    }
  }

  /** The dot and what is behind it, when there is one comment at most before it. */
  lemma DotComes(x: Scanner, before: Lines, more: string, s: Port) returns (s1: Port)
    requires Lexes(x) && PlainLines(before) && |before| <= 1
    requires Spans(s.text, s.pos, " " + (LinesText(before) + (". " + more)))
    ensures x.element(s) == s1 && s1.token == DOT && Stands(s1, s, s1.pos, s.nesting)
    ensures Spans(s1.text, s1.pos, more) && s1.pos == s.pos + 3 + |LinesText(before)|
  {
    assert "" + (". " + more) == ". " + more;
    if before == [] {
      SpansPart(s.text, s.pos, " ", ". " + more);
      assert SpaceFact(x, " ", s);
      s1 := PointAt(x, more, GoTo(s, s.pos + 1));
    } else {
      var s0 := FirstLine(x, before, ". " + more, s);
      s1 := PointAt(x, more, s0);
    }
  }

  lemma PointAt(x: Scanner, more: string, s: Port) returns (s1: Port)
    requires Lexes(x) && Spans(s.text, s.pos, ". " + more)
    ensures s1 == x.next(s) == x.element(s) && s1.token == DOT && Stands(s1, s, s.pos + 2, s.nesting)
    ensures Spans(s1.text, s1.pos, more)
  {
    SpansPart(s.text, s.pos, ". ", more);
    assert PointFact(x, s);
    s1 := x.next(s);
  }

  /** Only a closing parenthesis may follow what is behind a dot. */
  lemma DotEnds(x: Scanner, after: Lines, s: Port)
    requires Lexes(x) && PlainLines(after) && Spans(s.text, s.pos, Gap(after) + ")")
    ensures if after == [] then x.next(s) == GoTo(s, s.pos + 1).(token := CLOSE) else x.next(s).token == COMMENT
  {
    if after == [] {
      assert "" + ")" == ")";
      StopsAtClose(x, s);
    } else {
      Assoc(" ", LinesText(after), ")");
      SpansPart(s.text, s.pos, " ", LinesText(after) + ")");
      assert SpaceFact(x, " ", s);
      NextLine(x, after, ")", GoTo(s, s.pos + 1));
    }
  }

  // ---------------------------------------------------------------------------
  // Data
  // ---------------------------------------------------------------------------

  /** A text of a datum is read as the datum exactly if its comments are where they may be; otherwise it is
      an error. */
  lemma {:induction false} DocTold(x: Scanner, w: Style, fuel: nat, d: Doc, s: Port, q: nat)
    requires Lexes(x) && Styled(x, w) && Good(w, d) && ComesNext(w, d, s) && fuel >= Weight(d) && q == s.pos + |Show(w, d)|
    ensures Told(Datum(x, fuel, x.next(s)), Understood(d), Of(d), s, DocEnd(w, d, s.text, q), s.nesting)
    decreases Weight(d), 1, d
  {
    match d
    case Written(v) => assert ReadFact(x, w, v, fuel, s);
    case Spaced(blanks, d1) => SpacedTold(x, w, fuel, blanks, d1, s, q);
    case Commented(bang, line, d1) => CommentedTold(x, w, fuel, bang, line, d1, s, q);
    case Quoted(sign, d1) => QuotedTold(x, w, fuel, sign, d1, s, q);
    case Empty(lines) => EmptyTold(x, fuel, lines, s);
    case Listed(first, rest) => ListTold(x, w, fuel, first, rest, s, q);
  }

  lemma {:induction false} SpacedTold(x: Scanner, w: Style, fuel: nat, blanks: string, d: Doc, s: Port, q: nat)
    requires Lexes(x) && Styled(x, w) && Blank(blanks) && Good(w, d) && ComesNext(w, Spaced(blanks, d), s)
    requires fuel >= 1 + Weight(d) && q == s.pos + |blanks| + |Show(w, d)|
    ensures Told(Datum(x, fuel, x.next(s)), Understood(d), Of(d), s, DocEnd(w, d, s.text, q), s.nesting)
    decreases Weight(d) + 1, 0, d
  {
    SpacedNext(x, w, blanks, d, s);
    DocTold(x, w, fuel, d, GoTo(s, s.pos + |blanks|), q);
  }

  lemma {:induction false} CommentedTold(x: Scanner, w: Style, fuel: nat, bang: bool, line: string, d: Doc, s: Port, q: nat)
    requires Lexes(x) && Styled(x, w) && PlainLine(line) && Good(w, d) && ComesNext(w, Commented(bang, line, d), s)
    requires fuel >= 1 + Weight(d) && q == s.pos + |CommentLine(bang, line)| + |Show(w, d)|
    ensures Told(Datum(x, fuel, x.next(s)), Understood(d), Of(d), s, DocEnd(w, d, s.text, q), s.nesting)
    decreases Weight(d) + 1, 0, d
  {
    CommentedNext(x, w, bang, line, d, s);
    AfterComment(x, fuel, x.next(s));
    DocTold(x, w, fuel - 1, d, GoTo(s, s.pos + |CommentLine(bang, line)|), q);
  }

  lemma {:induction false} QuotedTold(x: Scanner, w: Style, fuel: nat, sign: Value, d: Doc, s: Port, q: nat)
    requires Lexes(x) && Styled(x, w) && Good(w, Quoted(sign, d)) && ComesNext(w, Quoted(sign, d), s)
    requires fuel >= 2 + Weight(d) && q == s.pos + |Show(w, Quoted(sign, d))|
    ensures Told(Datum(x, fuel, x.next(s)), Understood(d), Pair(sign, Pair(Of(d), Nil)), s, DocEnd(w, d, s.text, q), s.nesting)
    decreases Weight(d) + 2, 0, d
  {
    var s1 := QuoteBegins(x, w, sign, d, s);
    DocTold(x, w, fuel - 1, d, s1, q);
    QuoteGives(x, fuel, s1, s, Understood(d), Of(d), DocEnd(w, d, s.text, q));
  }

  lemma QuoteBegins(x: Scanner, w: Style, sign: Value, d: Doc, s: Port) returns (s1: Port)
    requires Lexes(x) && Styled(x, w) && Good(w, Quoted(sign, d)) && ComesNext(w, Quoted(sign, d), s)
    ensures s1 == x.next(s) && IsQuoteToken(s1.token) && Quotation(Quoting(s1.token)) == sign && Good(w, d)
    ensures Stands(s1, s, s1.pos, s.nesting) && s1.pos + |Show(w, d)| == s.pos + |Show(w, Quoted(sign, d))|
    ensures ComesNext(w, d, s1) && (IsStart(x.next(s1).token) || x.next(s1).token == COMMENT)
  {
    QuotedNext(x, w, sign, d, s);
    s1 := x.next(s);
    FirstTokenOf(x, w, d, s1);
  }

  lemma {:induction false} ListTold(x: Scanner, w: Style, fuel: nat, first: Doc, rest: Others, s: Port, q: nat)
    requires Lexes(x) && Styled(x, w) && Good(w, first) && GoodRest(w, rest)
    requires Spans(s.text, s.pos, "(" + (Show(w, first) + ShowRest(w, rest)))
    requires fuel >= 1 + Weight(first) + RestWeight(rest) && q == s.pos + 1 + |Show(w, first)| + |ShowRest(w, rest)|
    ensures Told(Datum(x, fuel, x.next(s)), Understood(first) && RestUnderstood(rest), Pair(Of(first), OfRest(rest)), s,
                 RestEnd(w, rest, s.text, q), s.nesting)
    decreases Weight(first) + RestWeight(rest) + 1, 0, first
  {
    SpansAt(s.text, s.pos, "(" + (Show(w, first) + ShowRest(w, rest)), 0);
    SpansPart(s.text, s.pos, "(", Show(w, first) + ShowRest(w, rest));
    var s2 := Nested(GoTo(s, s.pos + 1).(token := OPEN), 1);
    RestStarts(w, rest);
    ElementNext(x, w, first, ShowRest(w, rest), s2);
    FirstTokenOf(x, w, first, s2);
    ElementsTold(x, w, fuel, first, rest, s2, q);
    ListGives(x, fuel, s, s2, Understood(first) && RestUnderstood(rest), Pair(Of(first), OfRest(rest)),
              RestEnd(w, rest, s.text, q));
  }

  lemma RestStarts(w: Style, r: Others)
    ensures ShowRest(w, r) != "" && (ShowRest(w, r)[0] == ' ' || ShowRest(w, r)[0] == ')')
  {
  }

  /** An element and the rest of its list. */
  lemma FirstNext(x: Scanner, w: Style, first: Doc, rest: Others, s: Port) returns (q: nat)
    requires Styled(x, w) && Spans(s.text, s.pos, Show(w, first) + ShowRest(w, rest))
    ensures q == s.pos + |Show(w, first)| && ComesNext(w, first, s) && DocEnd(w, first, s.text, q) == q
    ensures Spans(s.text, q, ShowRest(w, rest))
  {
    RestStarts(w, rest);
    ElementNext(x, w, first, ShowRest(w, rest), s);
    q := s.pos + |Show(w, first)|;
  }

  lemma {:induction false} ElementsTold(x: Scanner, w: Style, fuel: nat, first: Doc, rest: Others, s: Port, q: nat)
    requires Lexes(x) && Styled(x, w) && Good(w, first) && GoodRest(w, rest)
    requires Spans(s.text, s.pos, Show(w, first) + ShowRest(w, rest)) && fuel >= 1 + Weight(first) + RestWeight(rest)
    requires q == s.pos + |Show(w, first)| + |ShowRest(w, rest)|
    ensures Told(Elements(x, fuel, x.next(s)), Understood(first) && RestUnderstood(rest), Pair(Of(first), OfRest(rest)), s,
                 RestEnd(w, rest, s.text, q), s.nesting - 1)
    decreases Weight(first) + RestWeight(rest), 3, first
  {
    var q1 := FirstNext(x, w, first, rest, s);
    DocTold(x, w, fuel - 1, first, s, q1);
    OthersTold(x, w, fuel, rest, x.next(s), s, Understood(first), Of(first), q1, q);
  }

  /** What has come of the first element, and the others. */
  lemma {:induction false} OthersTold(x: Scanner, w: Style, fuel: nat, rest: Others, s1: Port, s: Port, ok: bool, v: Value,
                                      q1: nat, q: nat)
    requires Lexes(x) && Styled(x, w) && GoodRest(w, rest) && Spans(s.text, q1, ShowRest(w, rest))
    requires fuel >= 1 + RestWeight(rest) && q == q1 + |ShowRest(w, rest)|
    requires Told(Datum(x, fuel - 1, s1), ok, v, s, q1, s.nesting)
    ensures Told(Elements(x, fuel, s1), ok && RestUnderstood(rest), Pair(v, OfRest(rest)), s, RestEnd(w, rest, s.text, q),
                 s.nesting - 1)
    decreases RestWeight(rest), 2
  {
    if ok {
      var s2 := Datum(x, fuel - 1, s1).value.s;
      assert Stands(s2, s, q1, s.nesting);
      RestTold(x, w, fuel - 1, rest, s2, q);
    }
    ElementsGive(x, fuel, s1, s, ok, v, q1, RestUnderstood(rest), OfRest(rest), RestEnd(w, rest, s.text, q));
  }

  lemma {:induction false} RestTold(x: Scanner, w: Style, fuel: nat, rest: Others, s: Port, q: nat)
    requires Lexes(x) && Styled(x, w) && GoodRest(w, rest) && Spans(s.text, s.pos, ShowRest(w, rest))
    requires fuel >= RestWeight(rest) && q == s.pos + |ShowRest(w, rest)|
    ensures Told(Rest(x, fuel, x.element(s)), RestUnderstood(rest), OfRest(rest), s, RestEnd(w, rest, s.text, q), s.nesting - 1)
    decreases RestWeight(rest), 1
  {
    match rest
    case Closed(lines) => ClosedTold(x, fuel, lines, s);
    case More(d, more) => MoreTold(x, w, fuel, d, more, s, q);
    case Dotted(before, d, after) => DottedTold(x, w, fuel, before, d, after, s, q);
  }

  lemma JoinSpans(t: string, p: nat, a: string, b: string)
    requires Spans(t, p, a) && Spans(t, p + |a|, b)
    ensures Spans(t, p, a + b)
  {
    assert t[p..p + |a + b|] == t[p..p + |a|] + t[p + |a|..p + |a| + |b|];
  }

  lemma {:induction false} MoreTold(x: Scanner, w: Style, fuel: nat, d: Doc, more: Others, s: Port, q: nat)
    requires Lexes(x) && Styled(x, w) && Good(w, d) && GoodRest(w, more)
    requires Spans(s.text, s.pos, " " + (Show(w, d) + ShowRest(w, more)))
    requires fuel >= 1 + Weight(d) + RestWeight(more) && q == s.pos + 1 + |Show(w, d)| + |ShowRest(w, more)|
    ensures Told(Rest(x, fuel, x.element(s)), Understood(d) && RestUnderstood(more), Pair(Of(d), OfRest(more)), s,
                 RestEnd(w, more, s.text, q), s.nesting - 1)
    decreases 1 + Weight(d) + RestWeight(more), 0
  {
    var s1, d1 := MoreNext(x, w, d, more, s);
    ElementsTold(x, w, fuel, d1, more, s1, q);
    RestIsElements(x, fuel, x.next(s1));
  }

  lemma NoEndYet(x: Scanner, w: Style, d: Doc, s: Port)
    requires Lexes(x) && Styled(x, w) && Good(w, d) && ComesNext(w, d, s)
    ensures x.next(s).token != CLOSE && x.next(s).token != DOT && Spans(s.text, s.pos, Show(w, d))
  {
    FirstTokenOf(x, w, d, s);
  }

  /** A space and the next element, perhaps behind a comment. */
  lemma MoreNext(x: Scanner, w: Style, d: Doc, more: Others, s: Port) returns (s1: Port, d1: Doc)
    requires Lexes(x) && Styled(x, w) && Good(w, d) && Spans(s.text, s.pos, " " + (Show(w, d) + ShowRest(w, more)))
    ensures x.element(s) == x.next(s1) && Stands(s1, s, s1.pos, s.nesting)
    ensures x.next(s1).token != CLOSE && x.next(s1).token != DOT
    ensures Good(w, d1) && Spans(s1.text, s1.pos, Show(w, d1) + ShowRest(w, more))
    ensures s1.pos + |Show(w, d1)| == s.pos + 1 + |Show(w, d)|
    ensures Of(d1) == Of(d) && (Understood(d1) <==> Understood(d)) && Weight(d1) <= Weight(d)
  {
    var s0 := AfterSpace(x, Show(w, d) + ShowRest(w, more), s);
    var q := FirstNext(x, w, d, more, s0);
    d1, s1 := WithoutComment(x, w, d, s0);
    NoEndYet(x, w, d1, s1);
    JoinSpans(s1.text, s1.pos, Show(w, d1), ShowRest(w, more));
  }

  lemma AfterSpace(x: Scanner, more: string, s: Port) returns (s0: Port)
    requires Lexes(x) && Spans(s.text, s.pos, " " + more)
    ensures Stands(s0, s, s.pos + 1, s.nesting) && x.element(s0) == x.element(s) && Spans(s.text, s.pos + 1, more)
  {
    SpansPart(s.text, s.pos, " ", more);
    assert SpaceFact(x, " ", s);
    s0 := GoTo(s, s.pos + 1);
  }

  lemma {:induction false} DottedTold(x: Scanner, w: Style, fuel: nat, before: Lines, d: Doc, after: Lines, s: Port, q: nat)
    requires Lexes(x) && Styled(x, w) && PlainLines(before) && Good(w, d) && PlainLines(after)
    requires Spans(s.text, s.pos, " " + (LinesText(before) + (". " + (Show(w, d) + (Gap(after) + ")")))))
    requires fuel >= 4 + |before| + Weight(d)
    requires q == s.pos + 4 + |LinesText(before)| + |Show(w, d)| + |Gap(after)|
    ensures Told(Rest(x, fuel, x.element(s)), |before| <= 1 && Understood(d) && after == [], Of(d), s, q, s.nesting - 1)
    decreases 4 + |before| + Weight(d), 0
  {
    if |before| > 1 {
      TooManyBeforeDot(x, before, Show(w, d) + (Gap(after) + ")"), fuel, s);
    } else {
      var s1, q1 := DotAndDatum(x, w, before, d, after, s);
      DocTold(x, w, fuel - 1, d, s1, q1);
      BehindDot(x, fuel, after, s1, s, Understood(d), Of(d), q1);
    }
  }

  lemma DotAndDatum(x: Scanner, w: Style, before: Lines, d: Doc, after: Lines, s: Port) returns (s1: Port, q: nat)
    requires Lexes(x) && Styled(x, w) && PlainLines(before) && |before| <= 1
    requires Spans(s.text, s.pos, " " + (LinesText(before) + (". " + (Show(w, d) + (Gap(after) + ")")))))
    ensures x.element(s) == s1 && s1.token == DOT && Stands(s1, s, s1.pos, s.nesting) && ComesNext(w, d, s1)
    ensures q == s1.pos + |Show(w, d)| == s.pos + 3 + |LinesText(before)| + |Show(w, d)|
    ensures DocEnd(w, d, s.text, q) == q && Spans(s.text, q, Gap(after) + ")")
  {
    s1 := DotComes(x, before, Show(w, d) + (Gap(after) + ")"), s);
    q := s1.pos + |Show(w, d)|;
    ElementNext(x, w, d, Gap(after) + ")", s1);
  }

  lemma TooManyBeforeDot(x: Scanner, before: Lines, tail: string, fuel: nat, s: Port)
    requires Lexes(x) && PlainLines(before) && |before| > 1 && fuel > |before| + 1
    requires Spans(s.text, s.pos, " " + (LinesText(before) + (". " + tail)))
    ensures Rest(x, fuel, x.element(s)) == Fault
  {
    assert (". " + tail)[..2] == ". ";
    TooManyLines(x, before, ". " + tail, fuel, s);
  }

  lemma BehindDot(x: Scanner, fuel: nat, after: Lines, s1: Port, s: Port, ok: bool, v: Value, q: nat)
    requires Lexes(x) && PlainLines(after) && fuel > 0 && s1.token == DOT && Stands(s1, s, s1.pos, s.nesting)
    requires Spans(s.text, q, Gap(after) + ")") && Told(Datum(x, fuel - 1, x.next(s1)), ok, v, s1, q, s1.nesting)
    ensures Told(Rest(x, fuel, s1), ok && after == [], v, s, q + 1, s.nesting - 1)
  {
    if ok {
      DotEnds(x, after, Datum(x, fuel - 1, x.next(s1)).value.s);
    }
    DotGives(x, fuel, s1, s, ok, v, q, after == []);
  }
}
