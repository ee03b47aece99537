/** The command line parser (`include/SimpleOpt.h`), which sorts `argv` in place. */
module SimpleOpt {

  datatype ArgType = SO_NONE | SO_REQ_SEP | SO_REQ_CMB | SO_OPT | SO_MULTI

  datatype OptionEntry = OptionEntry(id: nat, text: string, kind: ArgType)

  datatype Flags = Flags(exact: bool, noErr: bool, shortArg: bool, clump: bool, pedantic: bool,
                         icaseShort: bool, icaseLong: bool, icaseWord: bool)

  const EXACT: Flags := Flags(true, false, false, false, false, false, false, false)

  datatype Error = SO_SUCCESS | SO_OPT_INVALID | SO_OPT_MULTIPLE
    | SO_ARG_INVALID | SO_ARG_INVALID_TYPE | SO_ARG_MISSING | SO_ARG_INVALID_DATA

  datatype Maybe<T> = None | Some(value: T)

  // ---------------------------------------------------------------------------
  // Matching an argument with the table
  // ---------------------------------------------------------------------------

  function Fold(c: char): char {
    if 'A' <= c <= 'Z' then (c as int + 32) as char else c
  }

  /** `IsEqual`. */
  predicate Same(a: char, b: char, icase: bool) {
    if icase then Fold(a) == Fold(b) else a == b
  }

  function Hyphens(s: string): (n: nat)
    ensures n <= |s| && (n < |s| ==> s[n] != '-') && forall i | 0 <= i < n :: s[i] == '-'
  {
    if s == "" || s[0] != '-' then 0 else 1 + Hyphens(s[1..])
  }

  /** Whether case is ignored depends on the form of the option in the table. */
  predicate IgnoresCase(flags: Flags, source: string) {
    if source == "" || source[0] != '-' then flags.icaseWord
    else if |source| <= 2 && !(|source| == 2 && source[1] == '-') then flags.icaseShort
    else flags.icaseLong
  }

  /** Letters of one alphabet only are the same in both cases. */
  lemma SameIff(a: char, b: char, icase: bool)
    ensures Same(a, b, icase) <==>
      a == b || (icase && (('A' <= a <= 'Z' && b as int - a as int == 32) || ('A' <= b <= 'Z' && a as int - b as int == 32)))
  {
  }

  /** Words without a hyphen, a hyphen with one letter, and all others have a flag each. */
  lemma CaseForms(flags: Flags, c: char, name: string)
    ensures c != '-' ==> IgnoresCase(flags, ['-', c]) == flags.icaseShort
    ensures c != '-' ==> IgnoresCase(flags, [c] + name) == flags.icaseWord
    ensures IgnoresCase(flags, "--" + name) == flags.icaseLong
    ensures name != "" ==> IgnoresCase(flags, ['-', c] + name) == flags.icaseLong
  {
  }

  /** `test` is the beginning of `source`, with as many hyphens. */
  predicate Begins(flags: Flags, source: string, test: string) {
    && Hyphens(source) == Hyphens(test) && |test| <= |source|
    && forall i | Hyphens(test) <= i < |test| :: Same(source[i], test[i], IgnoresCase(flags, source))
  }

  predicate Perfect(flags: Flags, source: string, test: string) {
    Begins(flags, source, test) && |test| == |source|
  }

  /** A proper beginning of at least a letter. */
  predicate Partial(flags: Flags, source: string, test: string) {
    Begins(flags, source, test) && Hyphens(test) < |test| < |source|
  }

  /** `CalcMatch`: -1 for a perfect match, otherwise the number of characters that match after the
      hyphens, 0 if there is no match. */
  method CalcMatch(flags: Flags, source: string, test: string) returns (n: int)
    ensures n == -1 <==> Perfect(flags, source, test)
    ensures n > 0 <==> Partial(flags, source, test)
    ensures n > 0 ==> n == |test| - Hyphens(test)
    ensures n >= -1
  {
    var icase := IgnoresCase(flags, source);
    var i := 0;
    while i < |source| && source[i] == '-' && i < |test| && test[i] == '-'
      invariant i <= |source| && i <= |test| && i <= Hyphens(source) && i <= Hyphens(test)
    {
      i := i + 1;
    }
    if (i < |source| && source[i] == '-') || (i < |test| && test[i] == '-') {
      return 0;
    }
    n := 0;
    while i < |source| && i < |test| && Same(source[i], test[i], icase)
      invariant i <= |source| && i <= |test| && i == Hyphens(test) + n && Hyphens(source) == Hyphens(test)
      invariant forall j | Hyphens(test) <= j < i :: Same(source[j], test[j], icase)
    {
      i := i + 1;
      n := n + 1;
    }
    if i == |source| {
      return if i == |test| then -1 else 0;
    }
    if i < |test| {
      return 0;
    }
  }

  predicate NoPerfectBelow(options: seq<OptionEntry>, flags: Flags, test: string, n: nat) {
    n <= |options| && forall i | 0 <= i < n :: !Perfect(flags, options[i].text, test)
  }

  /** What looking an argument up should give: the first perfect match; without one, and unless exact
      matching is asked for, the only partial match there is. */
  predicate LookedUp(options: seq<OptionEntry>, flags: Flags, test: string, found: Maybe<nat>, error: Error) {
    match found
    case Some(k) =>
      && k < |options| && error == SO_SUCCESS
      && if Perfect(flags, options[k].text, test) then NoPerfectBelow(options, flags, test, k)
         else
           && !flags.exact && NoPerfectBelow(options, flags, test, |options|)
           && Partial(flags, options[k].text, test)
           && forall i | 0 <= i < |options| && i != k :: !Partial(flags, options[i].text, test)
    case None =>
      && NoPerfectBelow(options, flags, test, |options|)
      && if error == SO_OPT_MULTIPLE then !flags.exact && SeveralPartial(options, flags, test)
         else error == SO_OPT_INVALID && (flags.exact || NonePartial(options, flags, test))
  }

  predicate SeveralPartial(options: seq<OptionEntry>, flags: Flags, test: string) {
    exists i, j | 0 <= i < j < |options| ::
      Partial(flags, options[i].text, test) && Partial(flags, options[j].text, test)
  }

  predicate NonePartial(options: seq<OptionEntry>, flags: Flags, test: string) {
    forall i | 0 <= i < |options| :: !Partial(flags, options[i].text, test)
  }

  /** There is one answer only. */
  lemma LookedUpOnce(options: seq<OptionEntry>, flags: Flags, test: string,
                     f1: Maybe<nat>, e1: Error, f2: Maybe<nat>, e2: Error)
    requires LookedUp(options, flags, test, f1, e1) && LookedUp(options, flags, test, f2, e2)
    ensures f1 == f2 && e1 == e2
  {
    if f1.Some? && f2.Some? {
      assert f1.value < f2.value || f2.value < f1.value || f1 == f2;
    }
  }

  method LookupOption(options: seq<OptionEntry>, flags: Flags, test: string) returns (found: Maybe<nat>, error: Error)
    ensures LookedUp(options, flags, test, found, error)
  {
    var best: Maybe<nat> := None;
    var bestLen, lastLen := 0, 0;
    ghost var len := |test| - Hyphens(test);
    var n: nat := 0;
    while n < |options|
      invariant NoPerfectBelow(options, flags, test, n)
      invariant best.None? ==> bestLen == 0 && forall i | 0 <= i < n :: !Partial(flags, options[i].text, test)
      invariant best.Some? ==> best.value < n && Partial(flags, options[best.value].text, test) && bestLen == len > 0
      invariant best.Some? && lastLen < bestLen ==>
        lastLen == 0 && forall i | 0 <= i < n && i != best.value :: !Partial(flags, options[i].text, test)
      invariant best.Some? && lastLen >= bestLen ==>
        exists i | 0 <= i < best.value :: Partial(flags, options[i].text, test)
    {
      var matched := CalcMatch(flags, options[n].text, test);
      if matched == -1 {
        return Some(n), SO_SUCCESS;
      }
      if matched > 0 && matched >= bestLen {
        lastLen := bestLen;
        bestLen := matched;
        best := Some(n);
      }
      n := n + 1;
    }
    if flags.exact || best.None? {
      return None, SO_OPT_INVALID;
    }
    if bestLen > lastLen {
      return best, SO_SUCCESS;
    }
    return None, SO_OPT_MULTIPLE;
  }

  // ---------------------------------------------------------------------------
  // What an argument is
  // ---------------------------------------------------------------------------

  datatype Kind =
    | Data
    | Found(index: nat, arg: Maybe<string>)
    | Clumped(letters: string)
    | Invalid(error: Error)

  predicate IsSwitch(s: string) {
    s != "" && s[0] == '-'
  }

  function EqualsAt(s: string): (n: nat)
    ensures n <= |s| && (n < |s| ==> s[n] == '=')
  {
    if s == "" || s[0] == '=' then 0 else 1 + EqualsAt(s[1..])
  }

  predicate HasValue(s: string) {
    IsSwitch(s) && EqualsAt(s) < |s|
  }

  /** The option as it is looked up: up to the equals sign. */
  function NameOf(s: string): string {
    if HasValue(s) then s[..EqualsAt(s)] else s
  }

  function ValueOf(s: string): Maybe<string> {
    if HasValue(s) then Some(s[EqualsAt(s) + 1..]) else None
  }

  /** The first equals sign of an option separates its name from its value. */
  lemma NameAndValue(s: string)
    ensures HasValue(s) <==> s != "" && s[0] == '-' && '=' in s
    ensures if HasValue(s) then ValueOf(s).Some? && s == NameOf(s) + "=" + ValueOf(s).value && '=' !in NameOf(s)
            else NameOf(s) == s && ValueOf(s) == None
  {
    FirstEquals(s);
    if HasValue(s) {
      var n := EqualsAt(s);
      assert s == s[..n] + [s[n]] + s[n + 1..];
    }
  }

  lemma {:induction false} FirstEquals(s: string)
    ensures '=' !in s[..EqualsAt(s)] && (EqualsAt(s) < |s| <==> '=' in s)
    decreases |s|
  {
    if s != "" && s[0] != '=' {
      FirstEquals(s[1..]);
      assert s == [s[0]] + s[1..];
      assert s[..EqualsAt(s)] == [s[0]] + s[1..][..EqualsAt(s[1..])];
    }
  }

  /** A single hyphen and more than one character: perhaps an option with its argument or several. */
  predicate ShortForm(s: string) {
    |s| > 2 && s[0] == '-' && s[1] != '-' && !HasValue(s)
  }

  predicate TakesShortArg(options: seq<OptionEntry>, flags: Flags, s: string, k: nat)
    requires |s| > 1
  {
    && flags.shortArg && LookedUp(options, flags, ['-', s[1]], Some(k), SO_SUCCESS)
    && (options[k].kind == SO_REQ_CMB || options[k].kind == SO_OPT)
  }

  ghost predicate Classified(options: seq<OptionEntry>, flags: Flags, s: string, kind: Kind) {
    (exists k :: LookedUp(options, flags, NameOf(s), Some(k), SO_SUCCESS) && kind == Found(k, ValueOf(s)))
    || (exists error :: LookedUp(options, flags, NameOf(s), None, error) && NotListed(options, flags, s, error, kind))
  }

  ghost predicate NotListed(options: seq<OptionEntry>, flags: Flags, s: string, error: Error, kind: Kind) {
    if ShortForm(s) && exists k :: TakesShortArg(options, flags, s, k) then
      exists k :: TakesShortArg(options, flags, s, k) && kind == Found(k, Some(s[2..]))
    else if ShortForm(s) && flags.clump then kind == Clumped(s[1..])
    else if !flags.noErr && IsSwitch(s) then kind == Invalid(error)
    else kind == Data
  }

  /** An argument is of one kind only. */
  lemma ClassifiedOnce(options: seq<OptionEntry>, flags: Flags, s: string, a: Kind, b: Kind)
    requires Classified(options, flags, s, a) && Classified(options, flags, s, b)
    ensures a == b
  {
    LookupsAgree(options, flags, NameOf(s));
    if |s| > 1 {
      LookupsAgree(options, flags, ['-', s[1]]);
    }
  }

  lemma LookupsAgree(options: seq<OptionEntry>, flags: Flags, test: string)
    ensures forall f1, e1, f2, e2 | LookedUp(options, flags, test, f1, e1) && LookedUp(options, flags, test, f2, e2) ::
              f1 == f2 && e1 == e2
  {
    forall f1, e1, f2, e2 | LookedUp(options, flags, test, f1, e1) && LookedUp(options, flags, test, f2, e2)
      ensures f1 == f2 && e1 == e2
    {
      LookedUpOnce(options, flags, test, f1, e1, f2, e2);
    }
  }

  /** An option of the table is found whatever its form, with what is behind its equals sign. */
  lemma ListedKind(options: seq<OptionEntry>, flags: Flags, s: string, k: nat, kind: Kind)
    requires LookedUp(options, flags, NameOf(s), Some(k), SO_SUCCESS) && Classified(options, flags, s, kind)
    ensures kind == Found(k, ValueOf(s))
  {
    LookupsAgree(options, flags, NameOf(s));
  }

  /** What is not in the table: one hyphen and two characters or more, with no equals sign, may be a letter
      with its argument, or else a clump. Anything else is an error if it begins with a hyphen and errors are
      reported, and a file if not. */
  lemma UnlistedKind(options: seq<OptionEntry>, flags: Flags, s: string, error: Error, short: Maybe<nat>, e: Error,
                     kind: Kind)
    requires LookedUp(options, flags, NameOf(s), None, error) && Classified(options, flags, s, kind)
    requires |s| > 1 ==> LookedUp(options, flags, ['-', s[1]], short, e)
    ensures var letters := |s| >= 3 && s[0] == '-' && s[1] != '-' && '=' !in s;
            var argument := letters && flags.shortArg && short.Some?
                            && options[short.value].kind in {SO_REQ_CMB, SO_OPT};
            if argument then kind == Found(short.value, Some(s[2..]))
            else if letters && flags.clump then kind == Clumped(s[1..])
            else if s != "" && s[0] == '-' && !flags.noErr then kind == Invalid(error)
            else kind == Data
  {
    NameAndValue(s);
    LookupsAgree(options, flags, NameOf(s));
    if |s| > 1 {
      LookupsAgree(options, flags, ['-', s[1]]);
      if short.Some? && TakesShortArg(options, flags, s, short.value) {
        assert exists k :: TakesShortArg(options, flags, s, k);
      }
    }
  }

  method Classify(options: seq<OptionEntry>, flags: Flags, s: string) returns (kind: Kind)
    ensures Classified(options, flags, s, kind) && (kind.Found? ==> kind.index < |options|)
  {
    var found, error := LookupOption(options, flags, NameOf(s));
    if found.Some? {
      return Found(found.value, ValueOf(s));
    }
    if ShortForm(s) {
      if flags.shortArg {
        var short, e := LookupOption(options, flags, ['-', s[1]]);
        if short.Some? && (options[short.value].kind == SO_REQ_CMB || options[short.value].kind == SO_OPT) {
          assert TakesShortArg(options, flags, s, short.value);
          return Found(short.value, Some(s[2..]));
        }
        forall k ensures !TakesShortArg(options, flags, s, k) {
          if TakesShortArg(options, flags, s, k) {
            LookedUpOnce(options, flags, ['-', s[1]], short, e, Some(k), SO_SUCCESS);
          }
        }
      }
      if flags.clump {
        return Clumped(s[1..]);
      }
    }
    return if !flags.noErr && IsSwitch(s) then Invalid(error) else Data;
  }

  // ---------------------------------------------------------------------------
  // The order of the arguments
  // ---------------------------------------------------------------------------

  /** The elements among the first `n` of `s` that carry this mark, in order. */
  function Marked(s: seq<nat>, marks: seq<bool>, mark: bool, n: nat): (r: seq<nat>)
    requires n <= |s| && n <= |marks|
    ensures |r| <= n
  {
    if n == 0 then []
    else Marked(s, marks, mark, n - 1) + if marks[n - 1] == mark then [s[n - 1]] else []
  }

  function Repeat(mark: bool, n: nat): (r: seq<bool>)
    ensures |r| == n && forall i | 0 <= i < n :: r[i] == mark
  {
    seq(n, i => mark)
  }

  lemma {:induction false} SameMarks(s: seq<nat>, marks: seq<bool>, next: seq<bool>, mark: bool, n: nat)
    requires n <= |s| && n <= |marks| && n <= |next| && forall i | 0 <= i < n :: next[i] == marks[i]
    ensures Marked(s, next, mark, n) == Marked(s, marks, mark, n)
    decreases n
  {
    if n > 0 {
      SameMarks(s, marks, next, mark, n - 1);
    }
  }

  /** `j` more elements that all carry the mark `given`. */
  lemma {:induction false} MoreMarked(s: seq<nat>, marks: seq<bool>, next: seq<bool>, given: bool, mark: bool, j: nat)
    requires |marks| + j <= |s| && |marks| + j <= |next|
    requires forall i | 0 <= i < |marks| :: next[i] == marks[i]
    requires forall i | |marks| <= i < |marks| + j :: next[i] == given
    ensures Marked(s, next, mark, |marks| + j)
         == Marked(s, marks, mark, |marks|) + if given == mark then s[|marks|..|marks| + j] else []
    decreases j
  {
    var k := |marks|;
    if j == 0 {
      SameMarks(s, marks, next, mark, k);
      assert s[k..k] == [];
    } else {
      MoreMarked(s, marks, next, given, mark, j - 1);
      assert s[k..k + j] == s[k..k + (j - 1)] + [s[k + j - 1]];
    }
  }

  /** All elements are there, each once, whichever marks they carry. */
  lemma {:induction false} MarkedIsAll(s: seq<nat>, marks: seq<bool>, n: nat)
    requires n <= |s| && n <= |marks|
    ensures multiset(Marked(s, marks, true, n)) + multiset(Marked(s, marks, false, n)) == multiset(s[..n])
    ensures |Marked(s, marks, true, n)| + |Marked(s, marks, false, n)| == n
    decreases n
  {
    if n > 0 {
      MarkedIsAll(s, marks, n - 1);
      assert s[..n] == s[..n - 1] + [s[n - 1]];
      OneMore(s[..n - 1], Marked(s, marks, true, n - 1), Marked(s, marks, false, n - 1), s[n - 1]);
      OneMarked(s, marks, n);
    }
  }

  lemma OneMarked(s: seq<nat>, marks: seq<bool>, n: nat)
    requires 0 < n <= |s| && n <= |marks|
    ensures var x := [s[n - 1]];
            && Marked(s, marks, marks[n - 1], n) == Marked(s, marks, marks[n - 1], n - 1) + x
            && Marked(s, marks, !marks[n - 1], n) == Marked(s, marks, !marks[n - 1], n - 1)
  {
  }

  lemma OneMore(s: seq<nat>, a: seq<nat>, b: seq<nat>, x: nat)
    requires multiset(a) + multiset(b) == multiset(s)
    ensures multiset(a + [x]) + multiset(b) == multiset(s + [x])
    ensures multiset(a) + multiset(b + [x]) == multiset(s + [x])
  {
  }

  /** `argv` while it is being processed: the options so far, the arguments not yet looked at, and
      the files so far, each in the order of the command line. */
  function Arranged(orig: seq<nat>, marks: seq<bool>): seq<nat>
    requires |marks| <= |orig|
  {
    OptionsSoFar(orig, marks) + orig[|marks|..] + FilesSoFar(orig, marks)
  }

  function OptionsSoFar(orig: seq<nat>, marks: seq<bool>): seq<nat>
    requires |marks| <= |orig|
  {
    Marked(orig, marks, true, |marks|)
  }

  function FilesSoFar(orig: seq<nat>, marks: seq<bool>): seq<nat>
    requires |marks| <= |orig|
  {
    Marked(orig, marks, false, |marks|)
  }

  /** However it is arranged, `argv` holds the pointers of the command line. */
  lemma ArrangedIsPermutation(orig: seq<nat>, marks: seq<bool>)
    requires |marks| <= |orig|
    ensures multiset(Arranged(orig, marks)) == multiset(orig) && |Arranged(orig, marks)| == |orig|
  {
    MarkedIsAll(orig, marks, |marks|);
    assert orig == orig[..|marks|] + orig[|marks|..];
  }

  lemma ArrangedLength(orig: seq<nat>, marks: seq<bool>)
    requires |marks| <= |orig|
    ensures |Arranged(orig, marks)| == |orig|
  {
    ArrangedIsPermutation(orig, marks);
  }

  /** Shuffling `x` behind the files. */
  lemma Rotated(d: seq<nat>, x: seq<nat>, v: seq<nat>, f: seq<nat>)
    ensures var a := d + (x + v) + f;
            a[..|d|] + a[|d| + |x|..] + a[|d|..|d| + |x|] == d + v + (f + x)
  {
  }

  lemma Halves(s: seq<nat>, k: nat, n: nat)
    requires k + n <= |s|
    ensures s[k..] == s[k..k + n] + s[k + n..]
  {
  }

  lemma PartsAfter(orig: seq<nat>, marks: seq<bool>, n: nat, mark: bool)
    requires |marks| + n <= |orig|
    ensures var next, x := marks + Repeat(mark, n), orig[|marks|..|marks| + n];
            && OptionsSoFar(orig, next) == OptionsSoFar(orig, marks) + (if mark then x else [])
            && FilesSoFar(orig, next) == FilesSoFar(orig, marks) + (if mark then [] else x)
  {
    MoreMarked(orig, marks, marks + Repeat(mark, n), mark, true, n);
    MoreMarked(orig, marks, marks + Repeat(mark, n), mark, false, n);
  }

  /** Passing over files is what `ShuffleArg` does. */
  lemma PassedOver(orig: seq<nat>, marks: seq<bool>, n: nat)
    requires |marks| + n <= |orig|
    ensures var a, s, next := Arranged(orig, marks), |OptionsSoFar(orig, marks)|, marks + Repeat(false, n);
            && s + n <= |a| == |orig|
            && Arranged(orig, next) == a[..s] + a[s + n..] + a[s..s + n]
            && OptionsSoFar(orig, next) == OptionsSoFar(orig, marks)
  {
    var k := |marks|;
    ArrangedLength(orig, marks);
    PartsAfter(orig, marks, n, false);
    Halves(orig, k, n);
    RotatedIs(Arranged(orig, marks), Arranged(orig, marks + Repeat(false, n)),
              OptionsSoFar(orig, marks), orig[k..k + n], orig[k + n..], FilesSoFar(orig, marks));
  }

  lemma RotatedIs(a: seq<nat>, b: seq<nat>, d: seq<nat>, x: seq<nat>, v: seq<nat>, f: seq<nat>)
    requires a == d + (x + v) + f && b == d + v + (f + x)
    ensures |d| + |x| <= |a| && b == a[..|d|] + a[|d| + |x|..] + a[|d|..|d| + |x|]
  {
    Rotated(d, x, v, f);
  }

  /** Arguments that an option takes stay where they are. */
  lemma Taken(orig: seq<nat>, marks: seq<bool>, n: nat)
    requires |marks| + n <= |orig|
    ensures var next := marks + Repeat(true, n);
            && Arranged(orig, next) == Arranged(orig, marks)
            && |OptionsSoFar(orig, next)| == |OptionsSoFar(orig, marks)| + n
  {
    PartsAfter(orig, marks, n, true);
    Halves(orig, |marks|, n);
  }

  /** `n` elements put at the end. */
  function Shuffled(a: seq<nat>, s: nat, n: nat): seq<nat>
    requires s + n <= |a|
  {
    if n == 0 then a else a[..s] + a[s + n..] + a[s..s + n]
  }

  /** Both together: `n` files and an option after them. */
  lemma PassedThenTaken(orig: seq<nat>, marks: seq<bool>, n: nat)
    requires |marks| + n < |orig|
    ensures var a, s := Arranged(orig, marks), |OptionsSoFar(orig, marks)|;
            var next := marks + Repeat(false, n) + Repeat(true, 1);
            && s + n < |a| == |orig| && |next| == |marks| + n + 1
            && Arranged(orig, next) == Shuffled(a, s, n)
            && |OptionsSoFar(orig, next)| == s + 1
  {
    PassedOver(orig, marks, n);
    Taken(orig, marks + Repeat(false, n), 1);
    ArrangedLength(orig, marks + Repeat(false, n));
    if n == 0 {
      assert marks + Repeat(false, 0) == marks;
    }
    MarkedIsAll(orig, marks, |marks|);
  }
}
