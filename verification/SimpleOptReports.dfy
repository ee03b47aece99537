/** What the command line parser is to report. */
module SimpleOptReports {
  import opened SimpleOpt

  /** The arguments, by their place in the table of strings, and what decides how they are understood. */
  datatype Line = Line(orig: seq<nat>, text: seq<string>, options: seq<OptionEntry>, flags: Flags)

  /** What the program sees of an option or an error, and the letters of a clump that are still to come. */
  datatype Shown = Shown(id: int, text: Maybe<string>, arg: Maybe<string>, error: Error, clump: Maybe<string>)

  // ---------------------------------------------------------------------------
  // Letters
  // ---------------------------------------------------------------------------

  predicate UnknownLetter(options: seq<OptionEntry>, c: char) {
    forall i | 0 <= i < |options| :: !Perfect(EXACT, options[i].text, ['-', c])
  }

  /** What is reported of a letter that has been looked up, with `rest` behind it: one that needs its
      argument combined takes the rest. */
  predicate FoundLetterShown(options: seq<OptionEntry>, found: Maybe<nat>, error: Error, rest: string, shown: Shown) {
    match found
    case None => shown == Shown(-1, None, None, error, Some(rest))
    case Some(k) =>
      && k < |options|
      && shown == if options[k].kind == SO_NONE then
                    Shown(options[k].id, Some(options[k].text), None, SO_SUCCESS, Some(rest))
                  else if options[k].kind == SO_REQ_CMB && rest != "" then
                    Shown(options[k].id, Some(options[k].text), Some(rest), SO_SUCCESS, Some(""))
                  else
                    Shown(-1, Some(options[k].text), None, SO_ARG_MISSING, Some(rest))
  }

  /** A letter of a clump is looked up exactly, as an option by itself. */
  ghost predicate LetterShown(options: seq<OptionEntry>, letter: char, rest: string, shown: Shown) {
    exists found, error ::
      LookedUp(options, EXACT, ['-', letter], found, error) && FoundLetterShown(options, found, error, rest, shown)
  }

  /** The first letters are not in the table, which is not reported. */
  predicate LettersPassed(options: seq<OptionEntry>, flags: Flags, letters: string, n: nat) {
    n <= |letters| && (n > 0 ==> flags.noErr) && forall i | 0 <= i < n :: UnknownLetter(options, letters[i])
  }

  ghost predicate LetterTold(options: seq<OptionEntry>, flags: Flags, letters: string, j: nat, shown: Shown) {
    && LettersPassed(options, flags, letters, j) && j < |letters|
    && LetterShown(options, letters[j], letters[j + 1..], shown)
    && (flags.noErr ==> !UnknownLetter(options, letters[j]))
  }

  /** What is reported of a clump: its first letter, or the first that is in the table. */
  ghost predicate ClumpTold(options: seq<OptionEntry>, flags: Flags, letters: string, shown: Shown) {
    exists j :: LetterTold(options, flags, letters, j, shown)
  }

  /** There are no letters, or none to report. */
  predicate ClumpSilent(options: seq<OptionEntry>, flags: Flags, letters: string) {
    LettersPassed(options, flags, letters, |letters|)
  }

  // ---------------------------------------------------------------------------
  // Arguments
  // ---------------------------------------------------------------------------

  /** An argument that is a file: no option in the table, and no error either. */
  ghost predicate IsData(line: Line, i: nat) {
    i < |line.orig| && line.orig[i] < |line.text| && Classified(line.options, line.flags, line.text[line.orig[i]], Data)
  }

  /** A clump of which nothing is reported. */
  ghost predicate IsSilent(line: Line, i: nat) {
    && i < |line.orig| && line.orig[i] < |line.text| && line.text[line.orig[i]] != ""
    && var s := line.text[line.orig[i]];
       Classified(line.options, line.flags, s, Clumped(s[1..])) && ClumpSilent(line.options, line.flags, s[1..])
  }

  /** The arguments up to `n` are files, which are passed over, or clumps of which nothing is reported. */
  ghost predicate Passed(line: Line, was: seq<bool>, marks: seq<bool>, n: nat) {
    && was <= marks && |was| <= n <= |marks|
    && forall i | |was| <= i < n :: if marks[i] then IsSilent(line, i) else IsData(line, i)
  }

  /** What is wrong with the argument that is combined with an option, or with its absence. */
  function ArgumentError(kind: ArgType, pedantic: bool, given: bool): (e: Error)
    ensures e == SO_ARG_INVALID <==> kind == SO_NONE && given
    ensures e == SO_ARG_INVALID_TYPE <==> kind == SO_REQ_SEP && given && pedantic
    ensures e == SO_ARG_MISSING <==> kind == SO_REQ_CMB && !given
    ensures e in {SO_SUCCESS, SO_ARG_INVALID, SO_ARG_INVALID_TYPE, SO_ARG_MISSING}
  {
    match kind
    case SO_NONE => if given then SO_ARG_INVALID else SO_SUCCESS
    case SO_REQ_SEP => if given && pedantic then SO_ARG_INVALID_TYPE else SO_SUCCESS
    case SO_REQ_CMB => if given then SO_SUCCESS else SO_ARG_MISSING
    case SO_OPT => SO_SUCCESS
    case SO_MULTI => SO_SUCCESS
  }

  /** An option that needs a separate argument and has none yet. */
  predicate Lacking(options: seq<OptionEntry>, kind: Kind) {
    kind.Found? && kind.index < |options| && options[kind.index].kind == SO_REQ_SEP && kind.arg == None
  }

  /** What is shown of argument `m`, whose kind has been found; `text` and `n` are the strings and the number
      of arguments looked at afterwards. A value is cut off from its option. */
  ghost predicate KindTold(line: Line, m: nat, kind: Kind, text: seq<string>, n: nat, shown: Shown)
    requires m < |line.orig| && line.orig[m] < |line.text|
  {
    var s := line.text[line.orig[m]];
    match kind
    case Data => false
    case Clumped(letters) => n == m + 1 && text == line.text && ClumpTold(line.options, line.flags, letters, shown)
    case Invalid(error) =>
      && n == m + 1 && text == line.text[line.orig[m] := NameOf(s)]
      && shown == Shown(-1, Some(NameOf(s)), ValueOf(s), error, None)
    case Found(k, arg) =>
      && k < |line.options| && text == line.text[line.orig[m] := NameOf(s)]
      && if Lacking(line.options, kind) then SeparateTold(line, m, line.options[k], text, n, shown)
         else
           && n == m + 1
           && shown == Shown(line.options[k].id, Some(line.options[k].text), arg,
                             ArgumentError(line.options[k].kind, line.flags.pedantic, arg.Some?), None)
  }

  /** An option that takes the next argument: there has to be one, and it must not look like an option if such
      are errors. */
  predicate SeparateTold(line: Line, m: nat, option: OptionEntry, text: seq<string>, n: nat, shown: Shown) {
    if |line.orig| <= m + 1 then n == m + 1 && shown == Shown(option.id, Some(option.text), None, SO_ARG_MISSING, None)
    else
      && line.orig[m + 1] < |text|
      && var next := text[line.orig[m + 1]];
         if next != "" && next[0] == '-' && !line.flags.noErr then
           n == m + 1 && shown == Shown(option.id, Some(option.text), None, SO_ARG_INVALID_DATA, None)
         else n == m + 2 && shown == Shown(option.id, Some(option.text), Some(next), SO_SUCCESS, None)
  }

  /** Argument `m` is the first of which something is reported; it and its own argument are no files. */
  ghost predicate ArgumentTold(line: Line, was: seq<bool>, marks: seq<bool>, text: seq<string>, m: nat, shown: Shown) {
    && Passed(line, was, marks, m) && m < |marks| <= |line.orig| && line.orig[m] < |line.text|
    && (forall i | m <= i < |marks| :: marks[i])
    && exists kind :: Classified(line.options, line.flags, line.text[line.orig[m]], kind)
                      && KindTold(line, m, kind, text, |marks|, shown)
  }

  ghost predicate FirstTold(line: Line, was: seq<bool>, marks: seq<bool>, text: seq<string>, shown: Shown) {
    exists m :: ArgumentTold(line, was, marks, text, m, shown)
  }

  /** What `Next` has to report: of the clump that it is in the middle of, or else of the first argument that
      is neither a file nor a clump without a known letter. */
  ghost predicate Told(line: Line, letters: string, was: seq<bool>, marks: seq<bool>, text: seq<string>, shown: Shown) {
    (marks == was && text == line.text && ClumpTold(line.options, line.flags, letters, shown))
    || (ClumpSilent(line.options, line.flags, letters) && FirstTold(line, was, marks, text, shown))
  }

  /** Nothing is left to report. */
  ghost predicate NothingLeft(line: Line, letters: string, was: seq<bool>, marks: seq<bool>) {
    |marks| == |line.orig| && ClumpSilent(line.options, line.flags, letters) && Passed(line, was, marks, |marks|)
  }

  // ---------------------------------------------------------------------------
  // Laws
  // ---------------------------------------------------------------------------

  /** A letter is in the table exactly if some entry is a hyphen and that letter. */
  lemma UnknownLetterIff(options: seq<OptionEntry>, c: char)
    ensures c != '-' ==> (UnknownLetter(options, c) <==> forall i | 0 <= i < |options| :: options[i].text != ['-', c])
  {
    forall i | 0 <= i < |options| && c != '-'
      ensures Perfect(EXACT, options[i].text, ['-', c]) <==> options[i].text == ['-', c]
    {
      PerfectLetter(options[i].text, c);
    }
  }

  lemma PerfectLetter(source: string, c: char)
    requires c != '-'
    ensures Perfect(EXACT, source, ['-', c]) <==> source == ['-', c]
  {
    var test := ['-', c];
    assert test[1..] == [c] && Hyphens([c]) == 0 && Hyphens(test) == 1;
    if Perfect(EXACT, source, test) {
      assert Same(source[1], test[1], IgnoresCase(EXACT, source));
      assert source == [source[0], source[1]];
    }
  }

  lemma UnknownIsNone(options: seq<OptionEntry>, c: char, found: Maybe<nat>, error: Error)
    requires LookedUp(options, EXACT, ['-', c], found, error)
    ensures UnknownLetter(options, c) <==> found == None
  {
  }

  /** Passing over `n` files. */
  lemma FilesPassed(line: Line, was: seq<bool>, n: nat, taken: nat)
    requires forall i | |was| <= i < |was| + n :: IsData(line, i)
    ensures Passed(line, was, was + Repeat(false, n) + Repeat(true, taken), |was| + n)
  {
  }

  /** A silent clump behind `n` files, and what comes after it. */
  lemma PassedOn(line: Line, was: seq<bool>, mid: seq<bool>, marks: seq<bool>, n: nat)
    requires |mid| > 0 && Passed(line, was, mid, |mid| - 1) && mid[|mid| - 1] && IsSilent(line, |mid| - 1)
    requires Passed(line, mid, marks, n)
    ensures Passed(line, was, marks, n)
  {
  }

  /** How far the letters of a clump have been gone through: up to the letter `j`. */
  ghost predicate Letter(options: seq<OptionEntry>, flags: Flags, letters: string, j: nat, valid: bool, shown: Shown) {
    && j < |letters| && LettersPassed(options, flags, letters, j) && valid == !UnknownLetter(options, letters[j])
    && LetterShown(options, letters[j], letters[j + 1..], shown)
  }

  lemma LetterSeen(options: seq<OptionEntry>, flags: Flags, letters: string, j: nat, found: Maybe<nat>, error: Error,
                   shown: Shown)
    requires LettersPassed(options, flags, letters, j) && j < |letters|
    requires LookedUp(options, EXACT, ['-', letters[j]], found, error)
    requires FoundLetterShown(options, found, error, letters[j + 1..], shown)
    ensures Letter(options, flags, letters, j, found.Some?, shown)
  {
    UnknownIsNone(options, letters[j], found, error);
  }

  /** After a clump has been begun: one of its letters is reported, or it is silent and what comes after it is
      reported. */
  lemma ClumpOrMore(line: Line, letters: string, was: seq<bool>, mid: seq<bool>, marks: seq<bool>, text: seq<string>,
                    shown: Shown)
    requires 0 < |mid| <= |line.orig| && Passed(line, was, mid, |mid| - 1) && mid[|mid| - 1]
    requires line.orig[|mid| - 1] < |line.text|
    requires Classified(line.options, line.flags, line.text[line.orig[|mid| - 1]], Clumped(letters))
    requires Told(line, letters, mid, marks, text, shown)
    ensures FirstTold(line, was, marks, text, shown)
  {
    if marks == mid && text == line.text && ClumpTold(line.options, line.flags, letters, shown) {
      assert KindTold(line, |mid| - 1, Clumped(letters), text, |marks|, shown);
      assert ArgumentTold(line, was, marks, text, |mid| - 1, shown);
    } else {
      var m: nat :| ArgumentTold(line, mid, marks, text, m, shown);
      ClumpIsSilent(line, letters, |mid| - 1);
      PassedOn(line, was, mid, marks, m);
      assert ArgumentTold(line, was, marks, text, m, shown);
    }
  }

  lemma ClumpIsSilent(line: Line, letters: string, i: nat)
    requires i < |line.orig| && line.orig[i] < |line.text| && ClumpSilent(line.options, line.flags, letters)
    requires Classified(line.options, line.flags, line.text[line.orig[i]], Clumped(letters))
    ensures IsSilent(line, i)
  {
  }

  /** Argument `m` comes behind files only. */
  ghost predicate FilesBefore(line: Line, was: seq<bool>, m: nat, kind: Kind) {
    && |was| <= m < |line.orig| && line.orig[m] < |line.text| && (forall i | |was| <= i < m :: IsData(line, i))
    && Classified(line.options, line.flags, line.text[line.orig[m]], kind)
  }

  lemma TakenIsTold(line: Line, was: seq<bool>, n: nat, taken: nat, kind: Kind, text: seq<string>, shown: Shown)
    requires FilesBefore(line, was, |was| + n, kind) && 0 < taken && |was| + n + taken <= |line.orig|
    requires KindTold(line, |was| + n, kind, text, |was| + n + taken, shown)
    ensures FirstTold(line, was, was + Repeat(false, n) + Repeat(true, taken), text, shown)
  {
    FilesPassed(line, was, n, taken);
    assert ArgumentTold(line, was, was + Repeat(false, n) + Repeat(true, taken), text, |was| + n, shown);
  }

  /** What is shown of an option or an error when it has been taken, before its separate argument. */
  ghost predicate FirstShown(line: Line, m: nat, kind: Kind, text: seq<string>, shown: Shown)
    requires m < |line.orig| && line.orig[m] < |line.text|
  {
    && var s := line.text[line.orig[m]];
       && text == line.text[line.orig[m] := NameOf(s)]
       && match kind
          case Invalid(error) => shown == Shown(-1, Some(NameOf(s)), ValueOf(s), error, None)
          case Found(k, arg) =>
            && k < |line.options|
            && shown == Shown(line.options[k].id, Some(line.options[k].text), arg,
                              ArgumentError(line.options[k].kind, line.flags.pedantic, arg.Some?), None)
          case _ => false
  }

  lemma OneIsTold(line: Line, was: seq<bool>, n: nat, kind: Kind, text: seq<string>, shown: Shown)
    requires FilesBefore(line, was, |was| + n, kind) && FirstShown(line, |was| + n, kind, text, shown)
    requires !Lacking(line.options, kind)
    ensures FirstTold(line, was, was + Repeat(false, n) + Repeat(true, 1), text, shown)
  {
    TakenIsTold(line, was, n, 1, kind, text, shown);
  }

  lemma SeparateIsTold(line: Line, was: seq<bool>, n: nat, kind: Kind, marks: seq<bool>, text: seq<string>, one: Shown,
                       shown: Shown)
    requires FilesBefore(line, was, |was| + n, kind) && FirstShown(line, |was| + n, kind, text, one)
    requires Lacking(line.options, kind) && |marks| - |was| - n in {1, 2}
    requires marks == was + Repeat(false, n) + Repeat(true, |marks| - |was| - n)
    requires SeparateTold(line, |was| + n, line.options[kind.index], text, |marks|, shown)
    ensures FirstTold(line, was, marks, text, shown)
  {
    TakenIsTold(line, was, n, |marks| - |was| - n, kind, text, shown);
  }

  // ---------------------------------------------------------------------------
  // There is one thing to report
  // ---------------------------------------------------------------------------

  lemma LetterOnce(options: seq<OptionEntry>, letter: char, rest: string, a: Shown, b: Shown)
    requires LetterShown(options, letter, rest, a) && LetterShown(options, letter, rest, b)
    ensures a == b
  {
    LookupsAgree(options, EXACT, ['-', letter]);
  }

  lemma SameLetter(options: seq<OptionEntry>, flags: Flags, letters: string, i: nat, a: Shown, j: nat, b: Shown)
    requires LetterTold(options, flags, letters, i, a) && LetterTold(options, flags, letters, j, b)
    ensures i <= j
  {
  }

  /** A clump reports one letter at most, and none if it is silent. */
  lemma ClumpOnce(options: seq<OptionEntry>, flags: Flags, letters: string, a: Shown, b: Shown)
    requires ClumpTold(options, flags, letters, a)
    ensures !ClumpSilent(options, flags, letters)
    ensures ClumpTold(options, flags, letters, b) ==> a == b
  {
    var i: nat :| LetterTold(options, flags, letters, i, a);
    assert flags.noErr ==> !UnknownLetter(options, letters[i]);
    if ClumpTold(options, flags, letters, b) {
      var j: nat :| LetterTold(options, flags, letters, j, b);
      SameLetter(options, flags, letters, i, a, j, b);
      SameLetter(options, flags, letters, j, b, i, a);
      LetterOnce(options, letters[i], letters[i + 1..], a, b);
    }
  }

  lemma SeparateOnce(line: Line, m: nat, option: OptionEntry, text: seq<string>, n1: nat, a: Shown, n2: nat, b: Shown)
    requires SeparateTold(line, m, option, text, n1, a) && SeparateTold(line, m, option, text, n2, b)
    ensures n1 == n2 && a == b
  {
  }

  lemma KindOnce(line: Line, m: nat, kind: Kind, t1: seq<string>, n1: nat, a: Shown, t2: seq<string>, n2: nat, b: Shown)
    requires m < |line.orig| && line.orig[m] < |line.text|
    requires KindTold(line, m, kind, t1, n1, a) && KindTold(line, m, kind, t2, n2, b)
    ensures t1 == t2 && n1 == n2 && a == b
  {
    match kind
    case Clumped(letters) => ClumpOnce(line.options, line.flags, letters, a, b);
    case _ =>
  }

  /** What is passed over is not reported, and is passed over in one way only. */
  lemma PassedOnce(line: Line, i: nat, silent: bool)
    requires if silent then IsSilent(line, i) else IsData(line, i)
    ensures !(if silent then IsData(line, i) else IsSilent(line, i))
    ensures forall kind, text, n, shown |
              Classified(line.options, line.flags, line.text[line.orig[i]], kind) :: !KindTold(line, i, kind, text, n, shown)
  {
    var s := line.text[line.orig[i]];
    forall kind, text, n, shown | Classified(line.options, line.flags, s, kind)
      ensures !KindTold(line, i, kind, text, n, shown)
    {
      if silent {
        ClassifiedOnce(line.options, line.flags, s, kind, Clumped(s[1..]));
        if ClumpTold(line.options, line.flags, s[1..], shown) {
          ClumpOnce(line.options, line.flags, s[1..], shown, shown);
        }
      } else {
        ClassifiedOnce(line.options, line.flags, s, kind, Data);
      }
    }
    if IsData(line, i) && IsSilent(line, i) {
      ClassifiedOnce(line.options, line.flags, s, Data, Clumped(s[1..]));
    }
  }

  /** No argument before the one that is reported could be reported. */
  lemma NoneBefore(line: Line, was: seq<bool>, m1: seq<bool>, m2: seq<bool>, t: seq<string>, n: nat, m: nat, shown: Shown)
    requires Passed(line, was, m1, n) && ArgumentTold(line, was, m2, t, m, shown)
    ensures n <= m
    ensures forall i | 0 <= i < n :: m1[i] == m2[i]
  {
    if m < n {
      PassedOnce(line, m, m1[m]);
      assert false;
    }
    forall i | 0 <= i < n ensures m1[i] == m2[i] {
      if i >= |was| {
        PassedOnce(line, i, m1[i]);
      }
    }
  }

  lemma SameArgument(line: Line, was: seq<bool>, m1: seq<bool>, t1: seq<string>, i: nat, a: Shown,
                     m2: seq<bool>, t2: seq<string>, b: Shown)
    requires ArgumentTold(line, was, m1, t1, i, a) && ArgumentTold(line, was, m2, t2, i, b)
    ensures |m1| == |m2| && t1 == t2 && a == b
  {
    var s := line.text[line.orig[i]];
    var k1 :| Classified(line.options, line.flags, s, k1) && KindTold(line, i, k1, t1, |m1|, a);
    var k2 :| Classified(line.options, line.flags, s, k2) && KindTold(line, i, k2, t2, |m2|, b);
    ClassifiedOnce(line.options, line.flags, s, k1, k2);
    KindOnce(line, i, k1, t1, |m1|, a, t2, |m2|, b);
  }

  lemma ArgumentOnce(line: Line, was: seq<bool>, m1: seq<bool>, t1: seq<string>, a: Shown, m2: seq<bool>, t2: seq<string>,
                     b: Shown)
    requires FirstTold(line, was, m1, t1, a) && FirstTold(line, was, m2, t2, b)
    ensures m1 == m2 && t1 == t2 && a == b
  {
    var i: nat :| ArgumentTold(line, was, m1, t1, i, a);
    var j: nat :| ArgumentTold(line, was, m2, t2, j, b);
    NoneBefore(line, was, m1, m2, t2, i, j, b);
    NoneBefore(line, was, m2, m1, t1, j, i, a);
    SameArgument(line, was, m1, t1, i, a, m2, t2, b);
    assert forall k | 0 <= k < |m1| :: m1[k] == m2[k];
  }

  /** At any time there is one thing to report and one way to have looked at the arguments, or there is nothing to
      report. */
  lemma ToldOnce(line: Line, letters: string, was: seq<bool>, m1: seq<bool>, t1: seq<string>, a: Shown, m2: seq<bool>,
                 t2: seq<string>, b: Shown)
    requires Told(line, letters, was, m1, t1, a)
    ensures Told(line, letters, was, m2, t2, b) ==> m1 == m2 && t1 == t2 && a == b
    ensures !NothingLeft(line, letters, was, m2)
  {
    if ClumpTold(line.options, line.flags, letters, a) {
      ClumpOnce(line.options, line.flags, letters, a, b);
    } else {
      var i: nat :| ArgumentTold(line, was, m1, t1, i, a);
      if NothingLeft(line, letters, was, m2) {
        NoneBefore(line, was, m2, m1, t1, |m2|, i, a);
      }
      if ClumpTold(line.options, line.flags, letters, b) {
        ClumpOnce(line.options, line.flags, letters, b, a);
      } else if Told(line, letters, was, m2, t2, b) {
        ArgumentOnce(line, was, m1, t1, a, m2, t2, b);
      }
    }
  }
}
