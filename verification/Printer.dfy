/** The printer: `OP_P0LIST` and `OP_P1LIST`, and the text they write. */
module Printer {
  import opened Registers
  import opened MachineRuns
  import opened Adequacy
  import opened Lexer

  /** The sign for a quotation; empty if the symbol is none. */
  function Sign(symbol: Value): string {
    if symbol == Sym("quote") then "'"
    else if symbol == Sym("quasiquote") then "`"
    else if symbol == Sym("unquote") then ","
    else if symbol == Sym("unquote-splicing") then ",@"
    else ""
  }

  /** A list of a quotation symbol and one datum is written with a sign. */
  predicate Abbreviated(v: Value) {
    v.Pair? && Sign(v.car) != "" && v.cdr.Pair? && v.cdr.cdr == Nil
  }

  /** `store` is what has been written. */
  function StepPrint(m: Machine<string>): (r: Eval<Status<string>>)
    ensures !r.Timeout?
  {
    match m.op
    case P0LIST =>
      if !m.args.Pair? then m.(store := m.store + AtomText(m.args)).Return(True)
      else if Abbreviated(m.args) then
        m.(store := m.store + Sign(m.args.car), args := m.args.cdr.car).Goto(P0LIST)
      else m.(store := m.store + "(").Save(P1LIST, m.args.cdr, Nil).(args := m.args.car).Goto(P0LIST)
    case P1LIST =>
      if m.args.Pair? then m.Save(P1LIST, m.args.cdr, Nil).(store := m.store + " ", args := m.args.car).Goto(P0LIST)
      else m.(store := m.store + ListEnd(m.args)).Return(True)
    case _ => Fault
  }

  function ListEnd(v: Value): string {
    (if v == Nil then "" else " . " + AtomText(v)) + ")"
  }

  function Text(v: Value): string {
    if !v.Pair? then AtomText(v)
    else if Abbreviated(v) then Sign(v.car) + Text(v.cdr.car)
    else "(" + (Text(v.car) + TailText(v.cdr))
  }

  function TailText(v: Value): string {
    if v.Pair? then " " + (Text(v.car) + TailText(v.cdr)) else ListEnd(v)
  }

  /** The frames that writing takes. */
  function Depth(v: Value): nat {
    if !v.Pair? then 0
    else if Abbreviated(v) then Depth(v.cdr.car)
    else Max(1 + Depth(v.car), TailDepth(v.cdr))
  }

  function TailDepth(v: Value): nat {
    if v.Pair? then Max(1 + Depth(v.car), TailDepth(v.cdr)) else 0
  }

  function Written(m: Machine<string>, text: string, frames: nat): Eval<Out<string>> {
    Got(Out(True, m.store + text, frames))
  }

  lemma Append(a: string, b: string, c: string)
    ensures a + b + c == a + (b + c)
  {
  }

  lemma {:induction false} DatumWritten(m: Machine<string>) returns (k: nat, p: nat)
    requires m.op == P0LIST
    ensures Agrees(StepPrint, 1, Written(m, Text(m.args), Depth(m.args)), m, k, p)
    decreases m.args, 1
  {
    k, p := 1, 0;
    var v := m.args;
    if !v.Pair? {
      Return(StepPrint, 1, m, Out(True, m.store + AtomText(v), 0));
    } else if Abbreviated(v) {
      var m1 := m.(store := m.store + Sign(v.car), args := v.cdr.car);
      var k1, p1 := DatumWritten(m1);
      Append(m.store, Sign(v.car), Text(v.cdr.car));
      k, p := Tail(StepPrint, 1, m, m1, Written(m1, Text(v.cdr.car), Depth(v.cdr.car)), k1, p1);
    } else {
      var m1 := m.(store := m.store + "(").Save(P1LIST, v.cdr, Nil).(args := v.car);
      k, p := ElementWritten(m, m1, "(");
    }
  }

  /** An element and what follows it, after an opening parenthesis or a space. */
  lemma {:induction false} ElementWritten(m: Machine<string>, m1: Machine<string>, start: string)
    returns (k: nat, p: nat)
    requires m.args.Pair? && StepPrint(m) == Got(Next(m1)) && m1.op == P0LIST
    requires m1.dump == m.dump + [Frame(P1LIST, m.args.cdr, m.envir, Nil)]
    requires m1.args == m.args.car && m1.store == m.store + start
    ensures Agrees(StepPrint, 1, Written(m, start + (Text(m.args.car) + TailText(m.args.cdr)),
                                         Max(1 + Depth(m.args.car), TailDepth(m.args.cdr))), m, k, p)
    decreases m.args, 0
  {
    var v := m.args;
    var fr := Frame(P1LIST, v.cdr, m.envir, Nil);
    var k1, p1 := DatumWritten(m1);
    var first := Out(True, m1.store + Text(v.car), Depth(v.car));
    var m2 := Resume(fr, first, m.dump);
    var k2, p2 := TailWritten(m2);
    Append(m.store, start, Text(v.car));
    Append(m.store, start + Text(v.car), TailText(v.cdr));
    Append(start, Text(v.car), TailText(v.cdr));
    k, p := Sequel(StepPrint, 1, m, m1, fr, Got(first), k1, p1, Written(m2, TailText(v.cdr), TailDepth(v.cdr)), k2, p2);
  }

  lemma {:induction false} TailWritten(m: Machine<string>) returns (k: nat, p: nat)
    requires m.op == P1LIST
    ensures Agrees(StepPrint, 1, Written(m, TailText(m.args), TailDepth(m.args)), m, k, p)
    decreases m.args, 1
  {
    k, p := 1, 0;
    if m.args.Pair? {
      var m1 := m.Save(P1LIST, m.args.cdr, Nil).(op := P0LIST, store := m.store + " ", args := m.args.car);
      k, p := ElementWritten(m, m1, " ");
    } else {
      Return(StepPrint, 1, m, Out(True, m.store + ListEnd(m.args), 0));
    }
  }

  /** The printer writes the text of a datum, for every datum and above every dump, which it leaves
      untouched, and takes as many frames as the datum is deep. */
  lemma WritesText(m: Machine<string>)
    requires m.op == P0LIST
    ensures Returns(StepPrint, m, Out(True, m.store + Text(m.args), Depth(m.args)))
  {
    var k, p := DatumWritten(m);
    assert ReturnsAt(StepPrint, m, Out(True, m.store + Text(m.args), Depth(m.args)), k, p);
  }

  // ---------------------------------------------------------------------------
  // The text, written out
  // ---------------------------------------------------------------------------

  /** The items in a row, and `end` behind them. */
  function Chain(items: seq<Value>, end: Value): Value {
    if items == [] then end else Pair(items[0], Chain(items[1..], end))
  }

  /** A space before each. */
  function SpacedTexts(items: seq<Value>): string {
    if items == [] then "" else SpacedTexts(items[..|items| - 1]) + (" " + Text(items[|items| - 1]))
  }

  lemma {:induction false} SpacedFirst(items: seq<Value>)
    requires items != []
    ensures SpacedTexts(items) == " " + Text(items[0]) + SpacedTexts(items[1..])
    decreases |items|
  {
    var n := |items| - 1;
    if n > 0 {
      SpacedFirst(items[..n]);
      assert items[1..][..n - 1] == items[..n][1..];
      Append(" " + Text(items[0]), SpacedTexts(items[..n][1..]), " " + Text(items[n]));
    } else {
      assert items[..0] == [] && items[1..] == [];
    }
  }

  lemma {:induction false} TailTextIs(items: seq<Value>, end: Value)
    requires !end.Pair?
    ensures TailText(Chain(items, end)) == SpacedTexts(items) + ((if end == Nil then "" else " . " + AtomText(end)) + ")")
    decreases |items|
  {
    if items != [] {
      SpacedFirst(items);
      TailTextIs(items[1..], end);
      Append(" " + Text(items[0]), SpacedTexts(items[1..]), (if end == Nil then "" else " . " + AtomText(end)) + ")");
      Append(" ", Text(items[0]), TailText(Chain(items[1..], end)));
    }
  }

  /** A list: its elements with a space between them, and what is not a list at its end behind a point. */
  lemma ListText(first: Value, items: seq<Value>, end: Value)
    requires !end.Pair? && !(end == Nil && |items| == 1 && Sign(first) != "")
    ensures Text(Pair(first, Chain(items, end))) ==
      "(" + (Text(first) + (SpacedTexts(items) + ((if end == Nil then "" else " . " + AtomText(end)) + ")")))
  {
    TailTextIs(items, end);
    if items != [] {
      assert |items| > 1 ==> Chain(items, end).cdr.Pair?;
    }
  }

  /** The four quotations, and nothing else, are abbreviated. */
  lemma QuotationText(v: Value)
    ensures Text(Pair(Sym("quote"), Pair(v, Nil))) == "'" + Text(v)
    ensures Text(Pair(Sym("quasiquote"), Pair(v, Nil))) == "`" + Text(v)
    ensures Text(Pair(Sym("unquote"), Pair(v, Nil))) == "," + Text(v)
    ensures Text(Pair(Sym("unquote-splicing"), Pair(v, Nil))) == ",@" + Text(v)
    ensures Sign(v) != "" ==> v in {Sym("quote"), Sym("quasiquote"), Sym("unquote"), Sym("unquote-splicing")}
  {
  }

  /** Constants, symbols and characters. */
  lemma AtomTexts(name: string, c: char)
    ensures Text(Nil) == "()" && Text(True) == "#t" && Text(False) == "#f" && Text(EofObj) == "#<EOF>"
    ensures Text(Sym(name)) == name
    ensures Text(Char(' ')) == "#\\space" && Text(Char(10 as char)) == "#\\newline" && Text(Char(9 as char)) == "#\\tab"
    ensures 33 <= c as int < 127 ==> Text(Char(c)) == "#\\" + [c]
  {
  }

  lemma {:induction false} DigitAtEnd(n: nat, d: nat)
    requires d < 10
    ensures Text(Num(d)) == [('0' as int + d) as char]
    ensures n > 0 ==> Text(Num(10 * n + d)) == Text(Num(n)) + [('0' as int + d) as char]
    ensures n > 0 ==> Text(Num(0 - n)) == "-" + Text(Num(n))
  {
    assert (10 * n + d) / 10 == n && (10 * n + d) % 10 == d;
  }

  /** Strings stand in quotes; what is behind a backslash, and what is not. */
  lemma StringText(c: char, s: string)
    ensures Text(Str("")) == "\"\""
    ensures c as int == 34 ==> Escaped(c) == "\\\""
    ensures c as int == 92 ==> Escaped(c) == "\\\\"
    ensures c as int == 10 ==> Escaped(c) == "\\n"
    ensures c as int == 9 ==> Escaped(c) == "\\t"
    ensures c as int == 13 ==> Escaped(c) == "\\r"
    ensures c as int == 7 ==> Escaped(c) == "\\x07"
    ensures c as int == 255 ==> Escaped(c) == "\\xFF"
    ensures 32 <= c as int < 255 && c as int !in {34, 92} ==> Escaped(c) == [c]
    ensures Text(Str([c] + s)) == "\"" + Escaped(c) + EscapedText(s) + "\""
  {
    assert ([c] + s)[1..] == s;
  }
}
