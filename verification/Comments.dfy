/** Comments and blanks: where they end, and that the token after them is the next one. */
module Comments {
  import opened Registers
  import opened Lexer
  import opened AtomRoundTrip
  import opened Reader

  /** Characters that a comment goes on over: no newline, no NUL, and not 0xff, which reads as the end. */
  predicate PlainLine(line: string) {
    forall i | 0 <= i < |line| :: 0 < line[i] as int < 255 && line[i] != '\n'
  }

  predicate Blank(blanks: string) {
    forall i | 0 <= i < |blanks| :: 0 < blanks[i] as int <= 32 || blanks[i] as int == 127
  }

  /** A comment begins with a semicolon or with `#!`. */
  function CommentSign(bang: bool): string {
    if bang then "#!" else ";"
  }

  function CommentLine(bang: bool, line: string): string {
    CommentSign(bang) + (line + "\n")
  }

  /** The rest of a line is skipped up to the first newline, NUL or 0xff or the end of the text: a newline
      and a 0xff are taken off the text too, a NUL is not. */
  lemma {:induction false} LineSkipped(t: string, p: nat, line: string)
    requires IsBytes(t) && PlainLine(line) && Spans(t, p, line)
    ensures var q := p + |line|;
            && (q == |t| || t[q] == '\0' ==> SkipLine(t, p) == q)
            && (q < |t| && (t[q] == '\n' || t[q] as int == 255) ==> SkipLine(t, p) == q + 1)
    decreases |line|
  {
    if line != [] {
      assert line == [line[0]] + line[1..];
      SpansPart(t, p, [line[0]], line[1..]);
      SpansAt(t, p, line, 0);
      LineSkipped(t, p + 1, line[1..]);
    }
  }

  lemma CommentLexed(s: Port, bang: bool)
    requires Spans(s.text, s.pos, CommentSign(bang))
    ensures Lex(s) == s.(token := COMMENT, pos := s.pos + |CommentSign(bang)|)
  {
    SpansAt(s.text, s.pos, CommentSign(bang), 0);
    FirstToken(s.text, s.pos);
    if bang {
      SpansAt(s.text, s.pos, "#!", 1);
    }
  }

  lemma {:induction false} SpaceSkipped(t: string, p: nat, blanks: string)
    requires IsBytes(t) && Blank(blanks) && Spans(t, p, blanks)
    ensures SkipSpace(t, p) == SkipSpace(t, p + |blanks|)
    decreases |blanks|
  {
    if blanks != [] {
      assert blanks == [blanks[0]] + blanks[1..];
      SpansPart(t, p, [blanks[0]], blanks[1..]);
      SpansAt(t, p, blanks, 0);
      SpaceSkipped(t, p + 1, blanks[1..]);
    }
  }

  /** Blanks in front of a token do not count. */
  lemma BlanksSkipped(s: Port, blanks: string)
    requires Blank(blanks) && Spans(s.text, s.pos, blanks)
    ensures Lex(s) == Lex(GoTo(s, s.pos + |blanks|)) && LexElement(s) == LexElement(GoTo(s, s.pos + |blanks|))
  {
    SpaceSkipped(s.text, s.pos, blanks);
  }

  /** After a comment the reader stands where reading what follows the line would begin, before a datum
      and after an element of a list alike. */
  lemma CommentSkipped(s: Port, bang: bool, line: string)
    requires PlainLine(line) && Spans(s.text, s.pos, CommentLine(bang, line))
    ensures var q := s.pos + |CommentLine(bang, line)|;
            && Lex(s).token == COMMENT && Lex(s) == s.(token := COMMENT, pos := Lex(s).pos)
            && SkipComment(Lex(s)) == Lex(GoTo(s, q)) && LexElement(s) == Lex(GoTo(s, q))
  {
    var sign := CommentSign(bang);
    SpansPart(s.text, s.pos, sign, line + "\n");
    CommentLexed(s, bang);
    WholeLineSkipped(s.text, s.pos + |sign|, line);
    LineLexed(s, Lex(s), s.pos + |sign| + |line| + 1);
  }

  lemma LineLexed(s: Port, s1: Port, q: nat)
    requires s1 == Lex(s) && s1 == s.(token := COMMENT, pos := s1.pos) && SkipLine(s.text, s1.pos) == q <= |s.text|
    ensures SkipComment(s1) == Lex(GoTo(s, q)) && LexElement(s) == Lex(GoTo(s, q))
  {
  }

  lemma WholeLineSkipped(t: string, p: nat, line: string)
    requires IsBytes(t) && PlainLine(line) && Spans(t, p, line + "\n")
    ensures SkipLine(t, p) == p + |line| + 1
  {
    SpansPart(t, p, line, "\n");
    SpansAt(t, p + |line|, "\n", 0);
    LineSkipped(t, p, line);
  }

  /** A comment may be the last thing in a text. */
  lemma CommentAtEnd(s: Port, bang: bool, line: string)
    requires PlainLine(line) && s.text[s.pos..] == CommentSign(bang) + line
    ensures Lex(s).token == COMMENT
    ensures SkipComment(Lex(s)) == s.(token := END, pos := |s.text|) && LexElement(s) == SkipComment(Lex(s))
  {
    var sign := CommentSign(bang);
    assert Spans(s.text, s.pos, sign + line);
    SpansPart(s.text, s.pos, sign, line);
    CommentLexed(s, bang);
    LineSkipped(s.text, s.pos + |sign|, line);
  }
}
