/** The arguments of up, down, rollback and redo, read the way the shell reads them. */
module Arguments {
  import opened Options
  import opened Orders
  import opened Text

  datatype Direction = Up | Down

  datatype DbType = MySQL | PostgreSQL | SQLite3

  /** At most `steps` migrations, up to and including version `till`. */
  datatype Limits = Limits(steps: Option<nat>, till: Option<nat>)

  /** The two shell variables the option loop fills, still as text. */
  datatype Raw = Raw(steps: string, stopver: string)

  const STEPS := "steps="
  const TILL := "till="

  /** One round of the option loop; nothing when it dies. */
  function ReadArgument(raw: Raw, arg: string): Option<Raw> {
    if StartsWith(arg, STEPS) then Some(raw.(steps := arg[|STEPS|..]))
    else if StartsWith(arg, TILL) then Some(raw.(stopver := arg[|TILL|..]))
    else if '=' in arg then None
    else if raw.stopver == "" then Some(raw.(stopver := arg))
    else None
  }

  function ReadArguments(args: seq<string>): Option<Raw> {
    if args == [] then Some(Raw("", ""))
    else
      var before := ReadArguments(args[..|args| - 1]);
      if before.None? then None else ReadArgument(before.value, args[|args| - 1])
  }

  predicate IsOctal(s: string) {
    forall i | 0 <= i < |s| :: '0' <= s[i] <= '7'
  }

  function OctalValue(s: string): nat
    requires IsOctal(s)
  {
    if s == [] then 0 else OctalValue(s[..|s| - 1]) * 8 + (s[|s| - 1] as int - '0' as int)
  }

  /** The lines of a text; the last one may be empty. */
  function Lines(s: string): (lines: seq<string>)
    ensures |lines| > 0
  {
    if s == [] then [""]
    else
      var rest := Lines(s[1..]);
      if s[0] == '\n' then [""] + rest else [[s[0]] + rest[0]] + rest[1..]
  }

  predicate HasLineOfDigits(s: string) {
    exists i | 0 <= i < |Lines(s)| :: AllDigits(Lines(s)[i])
  }

  /** `echo "$1" | grep -E '^[0-9]*$'`: one line of what echo prints has to be all digits. */
  predicate Passes(s: string) {
    if IsEchoOption(s) then 'n' !in s
    else HasLineOfDigits(s)
  }

  /**
    `is_numeric` for a text of one line. It looks at what `echo` prints, and -e and -E make echo print an empty
    line. With an n among them echo prints nothing at all, which is refused.
   */
  predicate IsNumeric(s: string) {
    AllDigits(s) || (IsEchoOption(s) && 'n' !in s)
  }

  /**
    The stop version as (( )) reads it: a leading zero means octal, and digits that are not octal make
    the comparison fail, so that it never stops the loop. Text like -e is minus a variable that is not set.
   */
  function StopVersion(s: string): Option<nat>
    requires IsNumeric(s)
  {
    if s == "" then None
    else if !AllDigits(s) then Some(0)
    else if s[0] != '0' then Some(Value(s))
    else if IsOctal(s) then Some(OctalValue(s))
    else None
  }

  /**
    The count as the source of the loop reads it. Text like -e never counts down to zero in awk, and
    makes the query of recorded versions fail, which then prints nothing.
   */
  function StepLimit(d: Direction, s: string): Option<nat>
    requires IsNumeric(s)
  {
    if s == "" then None
    else if AllDigits(s) then Some(Value(s))
    else if d.Up? then None
    else Some(0)
  }

  function Checked(d: Direction, raw: Raw): Option<Limits> {
    if IsNumeric(raw.steps) && IsNumeric(raw.stopver) then
      Some(Limits(StepLimit(d, raw.steps), StopVersion(raw.stopver)))
    else None
  }

  function ParseArguments(d: Direction, args: seq<string>): Option<Limits> {
    var raw := ReadArguments(args);
    if raw.None? then None else Checked(d, raw.value)
  }

  /** The option loop of `migrate`. */
  method ReadOptions(d: Direction, args: seq<string>) returns (limits: Option<Limits>)
    ensures limits == ParseArguments(d, args)
  {
    var raw := Raw("", "");
    var i := 0;
    while i < |args|
      invariant 0 <= i <= |args|
      invariant ReadArguments(args[..i]) == Some(raw)
    {
      var next := ReadArgument(raw, args[i]);
      assert args[..i + 1][..i] == args[..i];
      if next.None? {
        DiesEarly(args, i + 1);
        return None;
      }
      raw := next.value;
      i := i + 1;
    }
    assert args[..i] == args;
    limits := Checked(d, raw);
  }

  lemma {:induction false} DiesEarly(args: seq<string>, k: nat)
    requires k <= |args| && ReadArguments(args[..k]).None?
    ensures ReadArguments(args).None?
  {
    if k == |args| {
      assert args[..k] == args;
    } else {
      assert args[..|args| - 1][..k] == args[..k];
      DiesEarly(args[..|args| - 1], k);
    }
  }

  lemma OneArgument(arg: string)
    ensures ReadArguments([arg]) == ReadArgument(Raw("", ""), arg)
  {
    var args := [arg];
    var none: seq<string> := args[..|args| - 1];
    assert none == [] && ReadArguments(none) == Some(Raw("", ""));
  }

  /**
    The forms of the usage text are one: either part may be missing, and TILL may stand alone or behind `till=`,
    before or after the count.
   */
  lemma UsageForms(count: string, till: string)
    requires '=' !in till
    ensures var raw := Some(Raw(count, till));
      && ReadArguments([STEPS + count, TILL + till]) == raw
      && ReadArguments([TILL + till, STEPS + count]) == raw
      && ReadArguments([STEPS + count, till]) == raw
      && ReadArguments([till, STEPS + count]) == raw
    ensures ReadArguments([]) == Some(Raw("", ""))
    ensures ReadArguments([STEPS + count]) == Some(Raw(count, ""))
    ensures ReadArguments([TILL + till]) == ReadArguments([till]) == Some(Raw("", till))
  {
    var s, t := STEPS + count, TILL + till;
    assert s[|STEPS|..] == count && t[|TILL|..] == till && s[..|STEPS|] == STEPS && t[..|TILL|] == TILL;
    assert t[0] != STEPS[0];
    BareStop(till);
    OneArgument(s);
    OneArgument(t);
    OneArgument(till);
    TwoArguments(s, t);
    TwoArguments(t, s);
    TwoArguments(s, till);
    TwoArguments(till, s);
  }

  // ---------- Which arguments are read, and how ----------

  ghost predicate IsCount(arg: string) {
    exists c :: arg == "steps=" + c
  }

  ghost predicate IsStop(arg: string) {
    exists t :: arg == "till=" + t
  }

  predicate IsBare(arg: string) {
    '=' !in arg
  }

  /** `text` is what the last of the arguments that are no counts says, or nothing when there is none. */
  ghost predicate LastStopIs(args: seq<string>, text: string) {
    if forall i | 0 <= i < |args| :: IsCount(args[i]) then text == ""
    else exists i | 0 <= i < |args| :: (args[i] == "till=" + text || (IsBare(args[i]) && args[i] == text)) &&
                                       forall j | i < j < |args| :: IsCount(args[j])
  }

  ghost predicate LastCountIs(args: seq<string>, text: string) {
    if forall i | 0 <= i < |args| :: !IsCount(args[i]) then text == ""
    else exists i | 0 <= i < |args| :: args[i] == "steps=" + text && forall j | i < j < |args| :: !IsCount(args[j])
  }

  /** The loop dies at a bare argument when there is a stop version, and at any argument with an unknown name. */
  ghost predicate DiesAt(raw: Raw, arg: string) {
    !IsCount(arg) && !IsStop(arg) && (!IsBare(arg) || raw.stopver != "")
  }

  lemma KindOfArgument(arg: string)
    ensures StartsWith(arg, STEPS) <==> IsCount(arg)
    ensures StartsWith(arg, TILL) <==> IsStop(arg)
    ensures StartsWith(arg, STEPS) ==> arg == "steps=" + arg[|STEPS|..] && '=' in arg && !IsStop(arg)
    ensures StartsWith(arg, TILL) ==> arg == "till=" + arg[|TILL|..] && '=' in arg && !IsCount(arg)
    ensures forall c :: arg == "steps=" + c || arg == "till=" + c ==> '=' in arg
  {
    if StartsWith(arg, STEPS) {
      assert arg == "steps=" + arg[|STEPS|..] && arg[5] == '=' && arg[0] == 's';
    }
    if StartsWith(arg, TILL) {
      assert arg == "till=" + arg[|TILL|..] && arg[4] == '=' && arg[0] == 't';
    }
    forall c | arg == "steps=" + c ensures StartsWith(arg, STEPS) {
      assert arg[..6] == "steps=";
    }
    forall c | arg == "till=" + c ensures StartsWith(arg, TILL) {
      assert arg[..5] == "till=";
    }
  }

  lemma {:induction false} LastOnesAreRead(args: seq<string>)
    requires ReadArguments(args).Some?
    ensures LastCountIs(args, ReadArguments(args).value.steps) && LastStopIs(args, ReadArguments(args).value.stopver)
  {
    if args != [] {
      var front, arg := args[..|args| - 1], args[|args| - 1];
      LastOnesAreRead(front);
      assert args == front + [arg];
      LastOneCounts(front, ReadArguments(front).value, arg);
    }
  }

  ghost predicate DiesInRound(args: seq<string>, k: nat) {
    k < |args| && ReadArguments(args[..k]).Some? && DiesAt(ReadArguments(args[..k]).value, args[k])
  }

  lemma ReadNext(args: seq<string>, k: nat)
    requires k < |args| && ReadArguments(args[..k]).Some?
    ensures ReadArguments(args[..k + 1]) == ReadArgument(ReadArguments(args[..k]).value, args[k])
    ensures ReadArguments(args[..k + 1]).None? <==> DiesInRound(args, k)
  {
    assert args[..k + 1][..k] == args[..k];
    KindOfArgument(args[k]);
  }

  lemma {:induction false} DiesSomewhere(args: seq<string>, n: nat)
    requires n <= |args| && ReadArguments(args[..n]).None?
    ensures exists k :: DiesInRound(args, k)
  {
    if ReadArguments(args[..n - 1]).Some? {
      ReadNext(args, n - 1);
    } else {
      DiesSomewhere(args, n - 1);
    }
  }

  /**
    What the option loop makes of any arguments: the text of the last count, the text of the last argument that is no
    count; and it dies exactly when some argument has an unknown name, or stands alone behind a stop version.
   */
  lemma LastOnesCount(args: seq<string>)
    ensures ReadArguments(args).Some? ==>
              LastCountIs(args, ReadArguments(args).value.steps) && LastStopIs(args, ReadArguments(args).value.stopver)
    ensures ReadArguments(args).None? <==> exists k :: DiesInRound(args, k)
  {
    assert args[..|args|] == args;
    if ReadArguments(args).Some? {
      LastOnesAreRead(args);
      forall k: nat | k < |args| ensures !DiesInRound(args, k) {
        if ReadArguments(args[..k]).Some? {
          ReadNext(args, k);
          if ReadArguments(args[..k + 1]).None? {
            DiesEarly(args, k + 1);
          }
        }
      }
    } else {
      DiesSomewhere(args, |args|);
    }
  }

  lemma LastOneCounts(front: seq<string>, raw: Raw, arg: string)
    requires LastCountIs(front, raw.steps) && LastStopIs(front, raw.stopver)
    ensures ReadArgument(raw, arg).None? <==> DiesAt(raw, arg)
    ensures ReadArgument(raw, arg).Some? ==>
              && LastCountIs(front + [arg], ReadArgument(raw, arg).value.steps)
              && LastStopIs(front + [arg], ReadArgument(raw, arg).value.stopver)
  {
    KindOfArgument(arg);
    var args, next := front + [arg], ReadArgument(raw, arg);
    assert args[|front|] == arg && forall i | 0 <= i < |front| :: args[i] == front[i];
    if next.Some? {
      CountMovesOn(front, raw.steps, arg, next.value.steps);
      StopMovesOn(front, raw.stopver, arg, next.value.stopver);
    }
  }

  lemma CountMovesOn(front: seq<string>, text: string, arg: string, next: string)
    requires LastCountIs(front, text)
    requires if IsCount(arg) then arg == "steps=" + next else next == text
    ensures LastCountIs(front + [arg], next)
  {
    var args := front + [arg];
    assert args[|front|] == arg && forall i | 0 <= i < |front| :: args[i] == front[i];
    if !IsCount(arg) && exists i | 0 <= i < |front| :: IsCount(front[i]) {
      var i :| 0 <= i < |front| && front[i] == "steps=" + text && forall j | i < j < |front| :: !IsCount(front[j]);
      assert args[i] == "steps=" + next && forall j | i < j < |args| :: !IsCount(args[j]);
    }
  }

  lemma StopMovesOn(front: seq<string>, text: string, arg: string, next: string)
    requires LastStopIs(front, text)
    requires if IsCount(arg) then next == text else arg == "till=" + next || (IsBare(arg) && arg == next)
    ensures LastStopIs(front + [arg], next)
  {
    var args := front + [arg];
    assert args[|front|] == arg && forall i | 0 <= i < |front| :: args[i] == front[i];
    if IsCount(arg) && exists i | 0 <= i < |front| :: !IsCount(front[i]) {
      var i :| 0 <= i < |front| && (front[i] == "till=" + text || (IsBare(front[i]) && front[i] == text)) &&
               forall j | i < j < |front| :: IsCount(front[j]);
      assert args[i] == front[i] && forall j | i < j < |args| :: IsCount(args[j]);
    }
  }

  /** Concretely, a mistyped name is refused. */
  lemma MistypedName(d: Direction)
    ensures ParseArguments(d, ["step=1"]) == None
  {
    var step := "step=1";
    assert step[4] == '=';
    assert |step| == 6 && step[..6] == step && step != STEPS by { assert STEPS[5] == '=' && step[5] == '1'; }
    assert !StartsWith(step, TILL) by { assert step[..5][0] == 's' && TILL[0] == 't'; }
    OneArgument(step);
  }

  /** And a second stop version. */
  lemma SecondStopVersion(d: Direction)
    ensures ParseArguments(d, ["1", "2"]) == None
  {
    BareStop("1");
    BareStop("2");
    TwoArguments("1", "2");
  }

  /** While a count and a stop version are read as the numbers they spell. */
  lemma CountAndStop(d: Direction)
    ensures ParseArguments(d, ["steps=2", "7"]) == Some(Limits(Some(2), Some(7)))
  {
    UsageForms("2", "7");
    assert STEPS + "2" == "steps=2";
    assert Value("2") == Horner(2, "") && Value("7") == Horner(7, "");
  }

  lemma TwoArguments(a: string, b: string)
    ensures ReadArguments([a, b]) ==
            match ReadArgument(Raw("", ""), a) { case None => None case Some(raw) => ReadArgument(raw, b) }
  {
    OneArgument(a);
    var args := [a, b];
    assert args[..|args| - 1] == [a];
  }

  lemma BareStop(till: string)
    requires '=' !in till
    ensures !StartsWith(till, STEPS) && !StartsWith(till, TILL)
  {
    assert STEPS[5] == '=' && TILL[4] == '=';
    assert |till| >= 6 ==> till[..6][5] == till[5];
    assert |till| >= 5 ==> till[..5][4] == till[4];
  }

  lemma {:induction false} ZeroValue(s: string)
    requires AllDigits(s)
    ensures Value(s) == 0 <==> forall i | 0 <= i < |s| :: s[i] == '0'
  {
    if s != [] {
      var front, last := s[..|s| - 1], s[|s| - 1];
      ZeroValue(front);
      assert s == front + [last];
      HornerSnoc(0, front, last);
    }
  }

  lemma {:induction false} OctalBelowDecimal(s: string)
    requires AllDigits(s) && IsOctal(s)
    ensures OctalValue(s) <= Value(s)
    ensures OctalValue(s) == Value(s) <==> forall i | 0 <= i < |s| - 1 :: s[i] == '0'
  {
    if s != [] {
      var front, last := s[..|s| - 1], s[|s| - 1];
      OctalBelowDecimal(front);
      ZeroValue(front);
      assert s == front + [last];
      HornerSnoc(0, front, last);
      assert (forall i | 0 <= i < |front| :: front[i] == '0') <==> forall i | 0 <= i < |s| - 1 :: s[i] == '0';
    }
  }

  /** Leading zeros do not matter: there is none, or only the last digit can count and that digit is octal. */
  predicate ReadsAsDecimal(s: string) {
    s == "" || s[0] != '0' || (s[|s| - 1] <= '7' && forall i | 0 <= i < |s| - 1 :: s[i] == '0')
  }

  /** An accepted stop version means the number it spells exactly when it is a number and reads as a decimal one. */
  lemma StopVersionIsDecimal(s: string)
    requires IsNumeric(s) && s != ""
    ensures AllDigits(s) && StopVersion(s) == Some(Value(s)) <==> AllDigits(s) && ReadsAsDecimal(s)
  {
    if AllDigits(s) && s[0] == '0' && IsOctal(s) {
      OctalBelowDecimal(s);
    }
  }

  /** What a stop version should mean: nothing when it is empty, itself when it is a number, and an error else. */
  function MeantAsStop(till: string): Option<Limits> {
    if AllDigits(till) then Some(Limits(None, if till == "" then None else Some(Value(till)))) else None
  }

  /** What a count should mean. */
  function MeantAsCount(count: string): Option<Limits> {
    if AllDigits(count) then Some(Limits(if count == "" then None else Some(Value(count)), None)) else None
  }

  lemma OptionsAreNoNumbers(s: string)
    requires IsEchoOption(s)
    ensures !AllDigits(s)
  {
    assert !IsDigit(s[0]);
  }

  lemma {:induction false} OneLine(s: string)
    requires '\n' !in s
    ensures Lines(s) == [s]
  {
    if s != [] {
      OneLine(s[1..]);
      assert s == [s[0]] + s[1..];
    }
  }

  /**
    The check alone, for texts of any number of lines: it lets exactly the numbers pass, except for the options of
    echo and for texts of several lines with one line all digits, an empty one included.
   */
  lemma WhatPasses(s: string)
    ensures (Passes(s) <==> AllDigits(s)) <==>
            !(IsEchoOption(s) && 'n' !in s) && !('\n' in s && HasLineOfDigits(s))
    ensures '\n' !in s ==> (Passes(s) <==> IsNumeric(s))
  {
    if IsEchoOption(s) {
      OptionsAreNoNumbers(s);
      assert '\n' !in s;
    } else if '\n' !in s {
      OneLine(s);
      assert Lines(s)[0] == s;
    } else {
      assert !AllDigits(s);
    }
  }

  /**
    TILL should be a number, and mean the number it spells; a text of several lines is none, and should be refused. That
    is so exactly for the texts that `echo` does not take for the options -e and -E, that have no line of digits among
    several, and that read as decimal numbers if they are numbers. The options are taken for version 0.
   */
  lemma StopsThatAreNoNumbers(d: Direction, till: string)
    ensures (if '\n' in till then !Passes(till) else ParseArguments(d, [TILL + till]) == MeantAsStop(till)) <==>
            && !(IsEchoOption(till) && 'n' !in till)
            && !('\n' in till && HasLineOfDigits(till))
            && (AllDigits(till) ==> ReadsAsDecimal(till))
    ensures IsEchoOption(till) && 'n' !in till ==>
            ParseArguments(d, [TILL + till]) == Some(Limits(None, Some(0)))
    ensures '=' !in till ==> ParseArguments(d, [till]) == ParseArguments(d, [TILL + till])
  {
    var t := TILL + till;
    OneArgument(t);
    assert t[|TILL|..] == till && t[..|TILL|] == TILL && t[0] != STEPS[0];
    if '=' !in till {
      UsageForms("", till);
    }
    if IsEchoOption(till) {
      OptionsAreNoNumbers(till);
    }
    if IsNumeric(till) && till != "" {
      StopVersionIsDecimal(till);
    }
    WhatPasses(till);
  }

  /** A recorded version as the query of each database type prints it: PostgreSQL puts a blank in front. */
  function VersionText(kind: DbType, v: Version): string {
    if kind.PostgreSQL? then " " + Padded(v, 10) else Padded(v, 10)
  }

  /** The version text works as a stop version exactly on the two database types that print no blank. */
  lemma VersionTextAsArgument(kind: DbType, d: Direction, v: Version)
    ensures ParseArguments(d, [VersionText(kind, v)]) ==
            if kind.PostgreSQL? then None else Some(Limits(None, Some(v)))
  {
    var t, p := VersionText(kind, v), Padded(v, 10);
    TenDigits(v);
    OneArgument(t);
    assert forall i | 0 <= i < |t| :: t[i] != '=';
    assert !StartsWith(t, STEPS) by { assert STEPS[5] == '='; if |t| >= 6 { assert t[..6][5] == t[5]; } }
    assert !StartsWith(t, TILL) by { assert TILL[4] == '='; if |t| >= 5 { assert t[..5][4] == t[4]; } }
    assert ReadArguments([t]) == Some(Raw("", t));
    if kind.PostgreSQL? {
      assert !IsDigit(t[0]);
    }
  }

  /** `rollback`: how its optional count becomes the argument of `down`. */
  function RollbackArguments(args: seq<string>): Option<seq<string>> {
    if |args| > 1 then None
    else Some([STEPS + if args == [] || args[0] == "" then "1" else args[0]])
  }

  /** Without a count, or with an empty one, it is "1"; more than one argument is refused. */
  lemma RollbackForms(args: seq<string>)
    ensures |args| > 1 ==> RollbackArguments(args) == None
    ensures args == [] || args == [""] ==> RollbackArguments(args) == Some(["steps=1"])
    ensures |args| == 1 && args[0] != "" ==> RollbackArguments(args) == Some(["steps=" + args[0]])
  {
    assert STEPS + "1" == "steps=1";
  }

  lemma RollbackCount(count: string)
    ensures ReadArguments([STEPS + count]) == Some(Raw(count, ""))
    ensures count != "" && AllDigits(count) ==>
            forall d :: ParseArguments(d, [STEPS + count]) == Some(Limits(Some(Value(count)), None))
  {
    OneArgument(STEPS + count);
    assert (STEPS + count)[|STEPS|..] == count;
  }

  /**
    STEPS should be numeric. A count means what it should, or is refused as it should be, exactly when `echo` does not
    take it for the options -e and -E and it has no line of digits among several. The options mean no limit to `up` and
    no migration at all to `down`.
   */
  lemma CountsThatAreNoNumbers(d: Direction, count: string)
    ensures (if '\n' in count then !Passes(count) else ParseArguments(d, [STEPS + count]) == MeantAsCount(count)) <==>
            !(IsEchoOption(count) && 'n' !in count) && !('\n' in count && HasLineOfDigits(count))
    ensures IsEchoOption(count) && 'n' !in count ==>
            ParseArguments(d, [STEPS + count]) == Some(Limits(if d.Up? then None else Some(0), None))
  {
    RollbackCount(count);
    if IsEchoOption(count) {
      OptionsAreNoNumbers(count);
    }
    WhatPasses(count);
  }

  function Joined(lines: seq<string>): string
    requires lines != []
  {
    if |lines| == 1 then lines[0] else lines[0] + "\n" + Joined(lines[1..])
  }

  /** The lines of a text hold no line break, and put together with line breaks they are the text. */
  lemma {:induction false} LinesAddUp(s: string)
    ensures Joined(Lines(s)) == s && forall i | 0 <= i < |Lines(s)| :: '\n' !in Lines(s)[i]
  {
    if s != [] {
      var rest := Lines(s[1..]);
      LinesAddUp(s[1..]);
      assert s == [s[0]] + s[1..];
      if s[0] == '\n' {
        assert Lines(s)[1..] == rest;
      } else {
        assert Lines(s)[1..] == rest[1..];
        assert |rest| > 1 ==> [s[0]] + (rest[0] + "\n" + Joined(rest[1..])) ==
                              ([s[0]] + rest[0]) + "\n" + Joined(rest[1..]);
      }
    }
  }

  /** A concrete text of two lines that passes for a number. */
  lemma TwoLinesPass()
    ensures Passes("x\n5") && !AllDigits("x\n5")
  {
    var s := "x\n5";
    assert s[1..] == "\n5" && s[1..][1..] == "5";
    OneLine("5");
    assert Lines(s[1..]) == [""] + ["5"];
    assert Lines(s)[1] == "5" && AllDigits(Lines(s)[1]);
    assert !IsDigit(s[0]);
  }

  /** A concrete stop version that is read as another number than it spells. */
  lemma OctalStopVersion()
    ensures ParseArguments(Up, ["0100"]) == Some(Limits(None, Some(64))) && Value("0100") == 100
  {
    OneArgument("0100");
    BareStop("0100");
    assert Value("0100") == Horner(1, "00") == Horner(10, "0") == Horner(100, "");
    var s := "0100";
    assert s[..3] == "010" && s[..3][..2] == "01" && s[..3][..2][..1] == "0";
    assert OctalValue("0") == 0 && OctalValue("01") == 1 && OctalValue("010") == 8;
  }

  /** And one that is not read at all. */
  lemma IgnoredStopVersion()
    ensures ParseArguments(Up, ["08"]) == Some(Limits(None, None)) && Value("08") == 8
  {
    OneArgument("08");
    BareStop("08");
    assert Value("08") == Horner(0, "8") == Horner(8, "");
    assert "08"[1] == '8';
  }
}
