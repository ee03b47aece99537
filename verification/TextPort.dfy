/** A string port, and the functions that move its cursor. */
module TextPort {
  import opened Registers
  import L = Lexer

  class InputPort {
    const text: string
    var curr: nat

    predicate Valid()
      reads this
    {
      L.IsBytes(text) && curr <= |text|
    }

    constructor (t: string)
      requires L.IsBytes(t)
      ensures Valid() && text == t && curr == 0
    {
      text, curr := t, 0;
    }

    method Inchar() returns (c: int)
      requires Valid()
      modifies this
      ensures Valid() && (c, curr) == L.Inchar(text, old(curr)) && -128 <= c < 128
    {
      if curr == |text| || text[curr] == '\0' {
        c := L.EOF;
      } else {
        c := L.Signed(text[curr]);
        curr := curr + 1;
      }
    }

    method Backchar(c: int)
      requires Valid()
      modifies this
      ensures Valid() && curr == L.Backchar(c, old(curr))
    {
      if c != L.EOF && curr != 0 {
        curr := curr - 1;
      }
    }

    method SkipSpace()
      requires Valid()
      modifies this
      ensures Valid() && curr == L.SkipSpace(text, old(curr))
    {
      ghost var before := curr;
      var c := Inchar();
      while L.IsBlank(c)
        invariant Valid() && before <= |text| && (c, curr) == L.Inchar(text, before)
        invariant L.SkipSpace(text, before) == L.SkipSpace(text, old(curr))
        decreases |text| - before
      {
        before := curr;
        c := Inchar();
      }
      Backchar(c);
    }

    method Token() returns (tok: L.Token)
      requires Valid()
      modifies this
      ensures Valid() && (tok, curr) == L.NextToken(text, old(curr))
    {
      SkipSpace();
      var c := Inchar();
      if c == L.EOF {
        return L.END;
      }
      if c == '.' as int {
        c := Inchar();
        if L.IsOneOf(" \n\t", c) {
          return L.DOT;
        }
        Backchar(c);
        Backchar('.' as int);
        return L.ATOM;
      }
      if c == ',' as int {
        c := Inchar();
        if c == '@' as int {
          return L.ATMARK;
        }
        Backchar(c);
        return L.COMMA;
      }
      if c == '#' as int {
        tok := SharpToken();
        return;
      }
      if c == '(' as int {
        return L.OPEN;
      }
      if c == ')' as int {
        return L.CLOSE;
      }
      if c == '\'' as int {
        return L.TICK;
      }
      if c == ';' as int {
        return L.COMMENT;
      }
      if c == '"' as int {
        return L.DQUOTE;
      }
      if c == '`' as int {
        return L.BACKTICK;
      }
      Backchar(c);
      tok := L.ATOM;
    }

    method SharpToken() returns (tok: L.Token)
      requires Valid() && curr > 0 && text[curr - 1] == '#'
      modifies this
      ensures Valid() && (tok, curr) == L.TokenAt(text, old(curr) - 1)
    {
      var c := Inchar();
      if c == '(' as int {
        return L.VEC;
      }
      if c == '!' as int {
        return L.COMMENT;
      }
      Backchar(c);
      tok := if L.IsOneOf(" tfodxb\\", c) then L.SHARPCONST else L.SHARP;
    }

    /** The buffer takes the delimiter too, which is then taken off again, except after a lone
        backslash. */
    method ReadStrUpTo() returns (strbuff: string)
      requires Valid()
      modifies this
      ensures Valid() && (strbuff, curr) == L.ReadUpTo(text, old(curr))
    {
      ghost var start := curr;
      ghost var n := 0;
      var c := Inchar();
      strbuff := [L.CharOf(c)];
      while !L.IsOneOf(L.DELIMITERS, c)
        invariant Valid() && -128 <= c < 128 && start + n <= |text|
        invariant strbuff == text[start..start + n] + [L.CharOf(c)]
        invariant (c, curr) == L.Inchar(text, start + n)
        invariant L.Extent(text, start) == n + L.Extent(text, start + n)
        decreases |text| - curr, if c == L.EOF then 0 else 1
      {
        NextOf(text, start, n);
        c := Inchar();
        strbuff := strbuff + [L.CharOf(c)];
        n := n + 1;
      }
      UpTo(text, start, n, c);
      if |strbuff| != 2 || strbuff[0] != '\\' {
        Backchar(c);
        strbuff := strbuff[..|strbuff| - 1];
      }
    }

    method ReadStrExp() returns (r: Eval<string>)
      requires Valid()
      modifies this
      ensures Valid() && !r.Timeout?
      ensures var s := L.ReadString(text, old(curr), "", L.NoEscape);
              if s.Got? then r == Got(s.value.0) && curr == s.value.1 else r == Fault
    {
      var strbuff: string := "";
      var state := L.NoEscape;
      while true
        invariant Valid()
        invariant L.ReadString(text, curr, strbuff, state) == L.ReadString(text, old(curr), "", L.NoEscape)
        decreases |text| - curr
      {
        var c := Inchar();
        if c == L.EOF || |strbuff| > L.STRBUFF_SIZE - 1 {
          return Fault;
        }
        if state == L.NoEscape && c == '"' as int {
          return Got(strbuff);
        }
        var step := L.LiteralStep(state, c);
        if step.Fault? {
          return Fault;
        }
        strbuff, state := strbuff + step.value.0, step.value.1;
      }
    }
  }

  lemma NextOf(text: string, start: nat, n: nat)
    requires start + n < |text| && L.Inchar(text, start + n).0 != L.EOF && L.IsBytes(text)
    ensures text[start..start + n] + [L.CharOf(L.Inchar(text, start + n).0)] == text[start..start + n + 1]
  {
  }

  lemma UpTo(text: string, start: nat, n: nat, c: int)
    requires L.IsBytes(text) && start + n <= |text| && n == L.Extent(text, start)
    requires -128 <= c < 128 && c == L.Inchar(text, start + n).0
    ensures L.ReadUpTo(text, start) == Word(text[start..start + n], c, L.Inchar(text, start + n).1)
  {
    if n == 1 {
      assert text[start..start + 1] == [text[start]];
      assert [text[start]] + [L.CharOf(c)] == [text[start], L.CharOf(c)];
    }
  }

  /** A word, and the position after it, when the character after it is `c`. */
  function Word(word: string, c: int, q: nat): (string, nat)
    requires -128 <= c < 128
  {
    if word == "\\" then (word + [L.CharOf(c)], q) else (word, L.Backchar(c, q))
  }

  /** `printslashstring`. */
  method PrintSlashString(s: string) returns (out: string)
    ensures out == L.Quoted(s)
  {
    out := "\"";
    var i := 0;
    while i < |s|
      invariant i <= |s| && out + L.EscapedText(s[i..]) == "\"" + L.EscapedText(s)
    {
      assert s[i..][1..] == s[i + 1..];
      out := out + L.Escaped(s[i]);
      i := i + 1;
    }
    out := out + "\"";
  }
}
