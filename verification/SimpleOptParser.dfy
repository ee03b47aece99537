/** The state of the command line parser and the operations that change it. */
module SimpleOptParser {
  import opened SimpleOpt
  import opened SimpleOptReports

  /** Lexicographic order. */
  predicate Less(a: (nat, nat), b: (nat, nat)) {
    a.0 < b.0 || (a.0 == b.0 && a.1 < b.1)
  }

  class CSimpleOpt {
    const argv: array<nat>
    var text: seq<string>
    var options: seq<OptionEntry>
    var flags: Flags
    var optionIdx: nat
    var optionId: int
    var nextOption: nat
    var lastArg: nat
    var optionText: Maybe<string>
    var optionArg: Maybe<string>
    var clump: Maybe<string>
    var lastError: Error

    /** The command line, and which of the arguments looked at so far belong to options. */
    ghost var orig: seq<nat>
    ghost var marks: seq<bool>

    ghost function CommandLine(): Line
      reads this
    {
      Line(orig, text, options, flags)
    }

    function Showing(): Shown
      reads this
    {
      Shown(optionId, optionText, optionArg, lastError, clump)
    }

    /** The letters of a clump that are still to come. */
    function Letters(): string
      reads this
    {
      if clump.Some? then clump.value else ""
    }

    ghost predicate Valid()
      reads this, argv
    {
      && |marks| <= |orig|
      && argv[..] == Arranged(orig, marks)
      && (forall i | 0 <= i < |orig| :: orig[i] < |text|)
      && nextOption == |OptionsSoFar(orig, marks)|
      && lastArg == nextOption + |orig| - |marks|
    }

    /** `Init`; the program's name is skipped unless all arguments are to be used. */
    constructor (a: array<nat>, strings: seq<string>, table: seq<OptionEntry>, f: Flags, useAll: bool)
      requires forall i | 0 <= i < a.Length :: a[i] < |strings|
      requires useAll || a.Length > 0
      ensures Valid() && argv == a && text == strings && options == table && flags == f && clump == None
      ensures orig == a[..] && marks == (if useAll then [] else [true])
    {
      argv, text, options, flags := a, strings, table, f;
      optionIdx, optionId, nextOption, lastArg := 0, -1, if useAll then 0 else 1, a.Length;
      optionText, optionArg, clump, lastError := None, None, None, SO_SUCCESS;
      orig, marks := a[..], if useAll then [] else [true];
      new;
      if !useAll {
        Taken(orig, [], 1);
        assert [] + Repeat(true, 1) == [true];
      }
    }

    /** `Copy`, in ascending order. */
    method Copy(dst: array<nat>, at: nat, src: array<nat>, from: nat, count: nat)
      requires at + count <= dst.Length && from + count <= src.Length && (dst == src ==> at <= from)
      modifies dst
      ensures dst[..] == old(dst[..at]) + old(src[from..from + count]) + old(dst[at + count..])
    {
      var i := 0;
      while i < count
        invariant i <= count
        invariant forall k | 0 <= k < dst.Length && !(at <= k < at + i) :: dst[k] == old(dst[k])
        invariant forall k | at <= k < at + i :: dst[k] == old(src[from + (k - at)])
        invariant dst != src ==> src[..] == old(src[..])
      {
        dst[at + i] := src[from + i];
        i := i + 1;
      }
      Copied(old(dst[..]), at, old(src[..]), from, count, dst[..]);
    }

    static lemma Copied(dst: seq<nat>, at: nat, src: seq<nat>, from: nat, count: nat, now: seq<nat>)
      requires at + count <= |dst| == |now| && from + count <= |src|
      requires forall k | 0 <= k < |dst| && !(at <= k < at + count) :: now[k] == dst[k]
      requires forall k | at <= k < at + count :: now[k] == src[from + (k - at)]
      ensures now == dst[..at] + src[from..from + count] + dst[at + count..]
    {
    }

    /** `ShuffleArg`: some arguments go to the end. */
    method ShuffleArg(start: nat, count: nat)
      requires start + count <= argv.Length && count <= lastArg
      modifies this`lastArg, argv
      ensures var was := old(argv[..]);
              argv[..] == was[..start] + was[start + count..] + was[start..start + count]
      ensures lastArg == old(lastArg) - count
    {
      var buf := new nat[count];
      var tail := argv.Length - start - count;
      ghost var was := argv[..];
      Copy(buf, 0, argv, start, count);
      Copy(argv, start, argv, start + count, tail);
      ghost var mid := argv[..];
      Copy(argv, start + tail, buf, 0, count);
      assert mid[..start + tail] == was[..start] + was[start + count..];
      assert buf[..] == was[start..start + count];
      lastArg := lastArg - count;
    }

    /** `Stop`: all remaining arguments are files. */
    method Stop()
      requires Valid()
      modifies this`lastArg, this`marks, argv
      ensures Valid() && nextOption == lastArg && marks == old(marks) + Repeat(false, |orig| - |old(marks)|)
    {
      ghost var rest := |orig| - |marks|;
      PassedOver(orig, marks, rest);
      if nextOption < lastArg {
        ShuffleArg(nextOption, lastArg - nextOption);
      } else {
        assert Repeat(false, 0) == [];
      }
      marks := marks + Repeat(false, rest);
    }

    /** The next character of a clump is an option by itself, looked up exactly; one that needs its
        argument combined takes the rest of the clump. */
    method NextClumped() returns (valid: bool, ghost found: Maybe<nat>, ghost error: Error)
      requires clump.Some? && clump.value != ""
      modifies this`clump, this`optionId, this`optionText, this`optionArg, this`lastError
      ensures clump.Some? && |clump.value| < |old(clump).value|
      ensures LookedUp(options, EXACT, ['-', old(clump).value[0]], found, error) && valid == found.Some?
      ensures FoundLetterShown(options, found, error, old(clump).value[1..], Showing())
    {
      var letter, rest := clump.value[0], clump.value[1..];
      clump := Some(rest);
      optionId, optionText, optionArg, lastError := -1, None, None, SO_SUCCESS;
      var index, e := LookupOption(options, EXACT, ['-', letter]);
      found, error := index, e;
      if index.None? {
        lastError := e;
        valid := false;
        return;
      }
      var option := options[index.value];
      optionText := Some(option.text);
      if option.kind == SO_NONE {
        optionId := option.id;
      } else if option.kind == SO_REQ_CMB && rest != "" {
        optionId := option.id;
        optionArg := clump;
        clump := Some("");
      } else {
        lastError := SO_ARG_MISSING;
      }
      valid := true;
    }

    /** The next `n` arguments, for an option that takes them. */
    method MultiArg(n: nat) returns (args: Maybe<seq<nat>>)
      requires Valid()
      modifies this`nextOption, this`lastError, this`marks
      ensures Valid()
      ensures args.Some? <==> old(Enough(n))
      ensures args.Some? ==> args.value == orig[|old(marks)|..|old(marks)| + n] && lastError == old(lastError)
      ensures marks == old(marks) + if args.Some? then Repeat(true, n) else []
      ensures nextOption == old(nextOption) + if args.Some? then n else 0
      ensures args.None? ==> lastError == if |old(marks)| + n > |orig| then SO_ARG_MISSING else SO_ARG_INVALID_DATA
    {
      if nextOption + n > lastArg {
        lastError := SO_ARG_MISSING;
        return None;
      }
      if !flags.noErr {
        var switch := AnySwitch(n);
        if switch {
          lastError := SO_ARG_INVALID_DATA;
          return None;
        }
      }
      Unscanned(n);
      args := Some(argv[nextOption..nextOption + n]);
      Taken(orig, marks, n);
      nextOption := nextOption + n;
      marks := marks + Repeat(true, n);
    }

    /** Whether one of the next `n` arguments looks like an option. */
    method AnySwitch(n: nat) returns (found: bool)
      requires Valid() && |marks| + n <= |orig|
      ensures found <==> exists j :: |marks| <= j < |marks| + n && IsSwitch(text[orig[j]])
    {
      Unscanned(n);
      var i := 0;
      while i < n
        invariant i <= n && forall j | |marks| <= j < |marks| + i :: !IsSwitch(text[orig[j]])
      {
        assert argv[nextOption + i] == argv[nextOption..nextOption + n][i] == orig[|marks| + i];
        if IsSwitch(text[argv[nextOption + i]]) {
          return true;
        }
        i := i + 1;
      }
      found := false;
    }

    /** There are `n` more arguments, and none looks like an option if such are errors. */
    ghost predicate Enough(n: nat)
      reads this
    {
      && |marks| + n <= |orig|
      && (flags.noErr || forall i | |marks| <= i < |marks| + n && orig[i] < |text| :: !IsSwitch(text[orig[i]]))
    }

    /** The arguments not yet looked at stand behind the options. */
    lemma Unscanned(n: nat)
      requires Valid() && |marks| + n <= |orig|
      ensures nextOption + n <= argv.Length && argv[nextOption..nextOption + n] == orig[|marks|..|marks| + n]
    {
      ArrangedIsPermutation(orig, marks);
      var d, u, f := OptionsSoFar(orig, marks), orig[|marks|..], FilesSoFar(orig, marks);
      assert (d + u + f)[|d|..|d| + n] == u[..n];
      assert u[..n] == orig[|marks|..|marks| + n];
    }

    /** Looks for the next argument that is not data. */
    method Scan() returns (n: nat, kind: Kind)
      requires Valid()
      ensures |marks| + n <= |orig|
      ensures forall i | |marks| <= i < |marks| + n :: IsData(CommandLine(), i)
      ensures kind.Found? ==> kind.index < |options|
      ensures if |marks| + n == |orig| then kind == Data
              else kind != Data && Classified(options, flags, text[orig[|marks| + n]], kind)
    {
      n, kind := 0, Data;
      while kind == Data && nextOption + n < lastArg
        invariant |marks| + n <= |orig|
        invariant forall i | |marks| <= i < |marks| + n :: IsData(CommandLine(), i)
        invariant kind != Data ==>
          |marks| + n < |orig| && Classified(options, flags, text[orig[|marks| + n]], kind)
        invariant kind.Found? ==> kind.index < |options|
        decreases |orig| - n, kind == Data
      {
        Unscanned(n + 1);
        assert argv[nextOption + n] == argv[nextOption..nextOption + (n + 1)][n] == orig[|marks| + n];
        kind := Classify(options, flags, text[argv[nextOption + n]]);
        if kind == Data {
          n := n + 1;
        }
      }
    }

    /** `n` files are shuffled out of the way, and the argument after them is the option's. */
    method PassFiles(n: nat)
      requires Valid() && |marks| + n < |orig|
      modifies this`lastArg, this`nextOption, this`marks, argv
      ensures Valid() && marks == old(marks) + Repeat(false, n) + Repeat(true, 1)
      ensures nextOption == old(nextOption) + 1
    {
      PassedThenTaken(orig, marks, n);
      ShuffleFiles(n);
      Settle(marks + Repeat(false, n) + Repeat(true, 1));
    }

    method ShuffleFiles(n: nat)
      requires nextOption + n <= argv.Length && n <= lastArg
      modifies this`lastArg, argv
      ensures argv[..] == Shuffled(old(argv[..]), nextOption, n) && lastArg == old(lastArg) - n
    {
      if n > 0 {
        ShuffleArg(nextOption, n);
      }
    }

    /** The arguments have been put in their places: the marks say so. */
    method Settle(ghost next: seq<bool>)
      requires |next| <= |orig| && argv[..] == Arranged(orig, next) && forall i | 0 <= i < |orig| :: orig[i] < |text|
      requires nextOption + 1 == |OptionsSoFar(orig, next)| && lastArg == nextOption + 1 + |orig| - |next|
      modifies this`nextOption, this`marks
      ensures Valid() && marks == next && nextOption == old(nextOption) + 1
    {
      nextOption := nextOption + 1;
      marks := next;
    }

    /** Whether the argument of an option that was found is as the table asks for. */
    method CheckArgument(kind: ArgType)
      modifies this`lastError
      ensures lastError == if ArgumentError(kind, flags.pedantic, optionArg.Some?) == SO_SUCCESS then old(lastError)
                           else ArgumentError(kind, flags.pedantic, optionArg.Some?)
    {
      match kind {
        case SO_NONE =>
          if optionArg.Some? {
            lastError := SO_ARG_INVALID;
          }
        case SO_REQ_SEP =>
          if optionArg.Some? && flags.pedantic {
            lastError := SO_ARG_INVALID_TYPE;
          }
        case SO_REQ_CMB =>
          if optionArg.None? {
            lastError := SO_ARG_MISSING;
          }
        case _ =>
      }
    }

    /** What is reported of an argument: an option of the table and its argument, or an error. */
    method Report(kind: Kind, name: string, value: Maybe<string>)
      requires kind.Invalid? || (kind.Found? && kind.index < |options|)
      requires lastError == SO_SUCCESS && optionId == -1
      modifies this`optionId, this`optionText, this`optionArg, this`lastError
      ensures Reported(kind, name, value)
    {
      if kind.Invalid? {
        optionText, optionArg, lastError := Some(name), value, kind.error;
      } else {
        var option := options[kind.index];
        optionId, optionText, optionArg := option.id, Some(option.text), kind.arg;
        CheckArgument(option.kind);
      }
    }

    predicate Reported(kind: Kind, name: string, value: Maybe<string>)
      reads this
    {
      match kind
      case Invalid(e) => optionId == -1 && optionText == Some(name) && optionArg == value && lastError == e
      case Found(k, arg) =>
        && k < |options| && optionId == options[k].id && optionText == Some(options[k].text) && optionArg == arg
        && lastError == ArgumentError(options[k].kind, flags.pedantic, arg.Some?)
      case _ => false
    }

    /** The argument behind `n` files is reported, its value having been cut off. */
    method TakeOption(n: nat, kind: Kind)
      requires Valid() && |marks| + n < |orig|
      requires kind.Invalid? || (kind.Found? && kind.index < |options|)
      requires lastError == SO_SUCCESS && optionId == -1
      modifies this`text, this`lastArg, this`nextOption, this`marks, argv
      modifies this`optionId, this`optionText, this`optionArg, this`lastError
      ensures Valid() && marks == old(marks) + Repeat(false, n) + Repeat(true, 1)
      ensures nextOption == old(nextOption) + 1
      ensures var p := orig[|old(marks)| + n];
              && text == old(text)[p := NameOf(old(text)[p])]
              && Reported(kind, NameOf(old(text)[p]), ValueOf(old(text)[p]))
    {
      Unscanned(n + 1);
      assert argv[nextOption + n] == argv[nextOption..nextOption + (n + 1)][n] == orig[|marks| + n];
      var p := argv[nextOption + n];
      var s := text[p];
      text := text[p := NameOf(s)];
      PassFiles(n);
      Report(kind, NameOf(s), ValueOf(s));
    }

    /** The argument after an option that has to have one. */
    method FetchArgument()
      requires Valid()
      modifies this`nextOption, this`lastError, this`marks, this`optionArg
      ensures Valid() && nextOption >= old(nextOption)
      ensures if |old(marks)| < |orig| && (flags.noErr || !IsSwitch(text[orig[|old(marks)|]])) then
                && marks == old(marks) + Repeat(true, 1) && lastError == old(lastError)
                && optionArg == Some(text[orig[|old(marks)|]])
              else
                && marks == old(marks) && optionArg == old(optionArg)
                && lastError == if |marks| == |orig| then SO_ARG_MISSING else SO_ARG_INVALID_DATA
    {
      var args := MultiArg(1);
      if args.Some? {
        optionArg := Some(text[args.value[0]]);
      }
    }

    /** How many arguments have not been looked at, and how many letters of a clump. */
    function Remaining(): (nat, nat)
      reads this
      requires nextOption <= lastArg
    {
      (lastArg - nextOption, if clump.Some? then |clump.value| else 0)
    }

    /** `Next`: the next option or error is reported, and files before it go to the end; when no
        option is left all remaining arguments are files. */
    method Next() returns (ok: bool)
      requires Valid()
      modifies this, argv
      ensures Valid() && orig == old(orig) && options == old(options) && flags == old(flags) && old(marks) <= marks
      ensures if ok then Told(old(CommandLine()), old(Letters()), old(marks), marks, text, Showing())
              else NothingLeft(old(CommandLine()), old(Letters()), old(marks), marks) && text == old(text)
      ensures !ok ==> nextOption == lastArg
      ensures ok ==> Less(Remaining(), old(Remaining()))
      decreases lastArg - nextOption, 2
    {
      if clump.Some? && clump.value != "" {
        var done := NextLetter();
        if done {
          return true;
        }
      }
      ok := NextArgument();
    }

    /** The letters of a clump; invalid ones are skipped if errors are not reported. */
    method NextLetter() returns (done: bool)
      requires clump.Some? && clump.value != ""
      modifies this`clump, this`optionId, this`optionText, this`optionArg, this`lastError
      ensures clump.Some? && |clump.value| < |old(clump).value|
      ensures if done then ClumpTold(options, flags, old(Letters()), Showing())
              else clump.value == "" && ClumpSilent(options, flags, old(Letters()))
    {
      ghost var all := clump.value;
      var valid, found, error := NextClumped();
      ghost var j := 0;
      LetterSeen(options, flags, all, j, found, error, Showing());
      while clump.value != "" && !valid && flags.noErr
        invariant clump.Some? && |clump.value| < |all| && j < |all|
        invariant Letter(options, flags, all, j, valid, Showing())
        invariant !valid ==> clump.value == all[j + 1..]
        decreases |clump.value|
      {
        valid, found, error := NextClumped();
        j := j + 1;
        LetterSeen(options, flags, all, j, found, error, Showing());
      }
      done := valid || !flags.noErr;
      if done {
        assert LetterTold(options, flags, all, j, Showing());
      }
    }

    /** `Next` when there is no clump to go on with. */
    method NextArgument() returns (ok: bool)
      requires Valid()
      modifies this, argv
      ensures Valid() && orig == old(orig) && options == old(options) && flags == old(flags) && old(marks) <= marks
      ensures if ok then FirstTold(old(CommandLine()), old(marks), marks, text, Showing())
              else |marks| == |orig| && Passed(old(CommandLine()), old(marks), marks, |marks|) && text == old(text)
      ensures !ok ==> nextOption == lastArg
      ensures ok ==> lastArg - nextOption < old(lastArg - nextOption)
      decreases lastArg - nextOption, 1
    {
      Forget();
      var n, kind := Scan();
      if kind == Data {
        OnlyFilesLeft();
        ok := false;
      } else if kind.Clumped? {
        ok := NextOfClump(n, kind.letters);
      } else {
        TakeNext(n, kind);
        ok := true;
      }
    }

    /** Nothing has been found yet. */
    method Forget()
      requires Valid()
      modifies this`clump, this`optionIdx, this`optionId, this`optionText, this`optionArg, this`lastError
      ensures Valid() && Showing() == Shown(-1, None, None, SO_SUCCESS, None)
    {
      clump, optionIdx, optionId, optionText, optionArg, lastError := None, nextOption, -1, None, None, SO_SUCCESS;
    }

    /** No option is left. */
    method OnlyFilesLeft()
      requires Valid() && forall i | |marks| <= i < |orig| :: IsData(CommandLine(), i)
      modifies this`lastArg, this`marks, argv
      ensures Valid() && Passed(CommandLine(), old(marks), marks, |marks|)
      ensures |marks| == |orig| && nextOption == lastArg
    {
      FilesPassed(CommandLine(), marks, |orig| - |marks|, 0);
      Stop();
      assert marks == old(marks) + Repeat(false, |orig| - |old(marks)|) + Repeat(true, 0);
    }

    /** The argument behind `n` files is a clump: it is taken, and its letters are gone through. */
    method NextOfClump(n: nat, letters: string) returns (ok: bool)
      requires Valid() && |marks| + n < |orig|
      requires forall i | |marks| <= i < |marks| + n :: IsData(CommandLine(), i)
      requires Classified(options, flags, text[orig[|marks| + n]], Clumped(letters))
      modifies this, argv
      ensures Valid() && orig == old(orig) && options == old(options) && flags == old(flags) && old(marks) <= marks
      ensures if ok then FirstTold(old(CommandLine()), old(marks), marks, text, Showing())
              else |marks| == |orig| && Passed(old(CommandLine()), old(marks), marks, |marks|) && text == old(text)
      ensures !ok ==> nextOption == lastArg
      ensures ok ==> lastArg - nextOption < old(lastArg - nextOption)
      decreases lastArg - nextOption, 0
    {
      ghost var line, was := CommandLine(), marks;
      BeginClump(n, letters);
      ghost var mid := marks;
      ok := Next();
      if ok {
        ClumpOrMore(line, letters, was, mid, marks, text, Showing());
      } else {
        ClumpIsSilent(line, letters, |mid| - 1);
        PassedOn(line, was, mid, marks, |marks|);
      }
    }

    /** The clump behind `n` files is taken. */
    method BeginClump(n: nat, letters: string)
      requires Valid() && |marks| + n < |orig|
      requires forall i | |marks| <= i < |marks| + n :: IsData(CommandLine(), i)
      modifies this`clump, this`lastArg, this`nextOption, this`marks, argv
      ensures Valid() && clump == Some(letters) && |marks| == |old(marks)| + n + 1 && marks[|marks| - 1]
      ensures Passed(CommandLine(), old(marks), marks, |marks| - 1)
      ensures lastArg - nextOption < old(lastArg - nextOption)
    {
      FilesPassed(CommandLine(), marks, n, 1);
      clump := Some(letters);
      PassFiles(n);
    }

    /** The argument behind `n` files is an option or an error. */
    method TakeNext(n: nat, kind: Kind)
      requires Valid() && |marks| + n < |orig| && Showing() == Shown(-1, None, None, SO_SUCCESS, None)
      requires forall i | |marks| <= i < |marks| + n :: IsData(CommandLine(), i)
      requires kind.Invalid? || (kind.Found? && kind.index < |options|)
      requires Classified(options, flags, text[orig[|marks| + n]], kind)
      modifies this`text, this`lastArg, this`nextOption, this`marks, argv
      modifies this`optionId, this`optionText, this`optionArg, this`lastError
      ensures Valid() && old(marks) <= marks
      ensures FirstTold(old(CommandLine()), old(marks), marks, text, Showing())
      ensures lastArg - nextOption < old(lastArg - nextOption)
    {
      ghost var line, was := CommandLine(), marks;
      TakeOption(n, kind);
      ghost var one := Showing();
      if Lacking(options, kind) && lastError == SO_SUCCESS {
        FetchArgument();
        SeparateIsTold(line, was, n, kind, marks, text, one, Showing());
      } else {
        OneIsTold(line, was, n, kind, text, one);
      }
    }

    /** `Files`: what has been passed over, in the order of the command line. */
    method Files() returns (files: seq<nat>)
      requires Valid()
      ensures files == FilesSoFar(orig, marks)
    {
      ArrangedIsPermutation(orig, marks);
      MarkedIsAll(orig, marks, |marks|);
      files := argv[lastArg..];
    }

    /** As programs use it: `Next` until there are no more options. */
    method NextToTheEnd() returns (files: seq<nat>)
      requires Valid()
      modifies this, argv
      ensures Valid() && orig == old(orig) && |marks| == |orig| && files == FilesSoFar(orig, marks)
      ensures multiset(argv[..]) == multiset(orig)
    {
      var more := Next();
      while more
        invariant Valid() && orig == old(orig)
        invariant !more ==> |marks| == |orig|
        decreases more, lastArg - nextOption, if clump.Some? then |clump.value| else 0
      {
        more := Next();
      }
      ArrangedIsPermutation(orig, marks);
      files := Files();
    }
  }
}
