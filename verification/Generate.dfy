/**
  `create`: the name and the layout of a generated migration, and what the runner reads back from them.
 */
module Generate {
  import opened Options
  import opened Orders
  import opened Text
  import opened MigrationFiles
  import opened Sections

  const TITLE := "-- Migration:"

  // ---------- migration_name ----------

  function SkipSign(s: string): string {
    if s != [] && (s[0] == '-' || s[0] == '+') then s[1..] else s
  }

  /** Reads zeros with at most one point; what follows them, if there was a zero at all. */
  function ZeroMantissa(s: string, seen: bool, point: bool): Option<string> {
    if s != [] && s[0] == '0' then ZeroMantissa(s[1..], true, point)
    else if s != [] && s[0] == '.' && !point then ZeroMantissa(s[1..], seen, true)
    else if seen then Some(s)
    else None
  }

  /** Drops the white space awk does not count when it reads a number: more than the blanks of the title. */
  function SkipSpace(s: string): string {
    if s != [] && (s[0] == ' ' || '\t' <= s[0] <= '\r') then SkipSpace(s[1..]) else s
  }

  predicate IsExponentOrNothing(s: string) {
    SkipSpace(s) == [] ||
    ((s[0] == 'e' || s[0] == 'E') &&
     var t := SkipSign(s[1..]);
     var k := DigitRun(t);
     0 < k && SkipSpace(t[k..]) == [])
  }

  /** Text that looks like the number zero, which awk takes for false. */
  predicate IsNumericZero(s: string) {
    var rest := ZeroMantissa(SkipSign(SkipSpace(s)), false, false);
    rest.Some? && IsExponentOrNothing(rest.value)
  }

  /** Concrete texts that look like zero, */
  lemma LooksLikeZero()
    ensures IsNumericZero("0") && IsNumericZero("-.0")
  {
    assert "-.0"[1..] == ".0" && ".0"[1..] == "0" && "0"[1..] == "";
  }

  lemma ZeroWithExponent()
    ensures IsNumericZero("0e5")
  {
    assert "0e5"[1..] == "e5" && "e5"[1..] == "5" && "5"[1..] == "";
  }

  /** and some that do not. */
  lemma LooksLikeNoZero()
    ensures !IsNumericZero("a") && !IsNumericZero(".") && !IsNumericZero("01")
  {
    assert "."[1..] == "" && "01"[1..] == "1";
  }

  /**
    `migration_name`: the title line if it has one that awk holds for true, else the path. Whether text that looks
    like zero is false depends on the awk: `numbers` says that it still takes a line for a number after `sub`.
   */
  function MigrationName(numbers: bool, path: string, lines: seq<string>): string {
    if lines == [] then path
    else if StartsWith(lines[0], TITLE) then
      var name := SkipBlanks(lines[0][|TITLE|..]);
      if name != [] && !(numbers && IsNumericZero(name)) then name else path
    else MigrationName(numbers, path, lines[1..])
  }

  // ---------- create ----------

  predicate IsNameChar(c: char) {
    'a' <= c <= 'z' || 'A' <= c <= 'Z' || IsDigit(c) || c == '_' || c == '.' || c == ' ' || c == '-'
  }

  const SMALL := "abcdefghijklmnopqrstuvwxyz"
  const LARGE := "ABCDEFGHIJKLMNOPQRSTUVWXYZ"

  lemma Small(c: char)
    ensures c in SMALL <==> 'a' <= c <= 'z'
  {
    if 'a' <= c <= 'z' {
      assert SMALL[c as int - 'a' as int] == c;
    }
  }

  lemma Large(c: char)
    ensures c in LARGE <==> 'A' <= c <= 'Z'
  {
    if 'A' <= c <= 'Z' {
      assert LARGE[c as int - 'A' as int] == c;
    }
  }

  /** The characters of a name, one by one. */
  lemma NameCharacters(c: char)
    ensures IsNameChar(c) <==> c in SMALL || c in LARGE || c in "0123456789_. -"
  {
    Small(c);
    Large(c);
    if IsDigit(c) {
      assert "0123456789"[c as int - '0' as int] == c;
      assert "0123456789_. -"[c as int - '0' as int] == c;
    }
  }

  /** The name as `echo` prints it has to match, so that an option of echo is no name. */
  predicate ValidName(name: string) {
    name != [] && !IsEchoOption(name) && forall i | 0 <= i < |name| :: IsNameChar(name[i])
  }

  /** `tr \  _` */
  function Underscored(name: string): (s: string)
    ensures |s| == |name|
    ensures forall i | 0 <= i < |s| :: s[i] == if name[i] == ' ' then '_' else name[i]
  {
    seq(|name|, i requires 0 <= i < |name| => if name[i] == ' ' then '_' else name[i])
  }

  function FileName(now: Version, name: string): string {
    Padded(now, 10) + "-" + Underscored(name) + SUFFIX
  }

  /** The generated file; `create` fills the two bodies with a template of the database type. */
  function Layout(name: string, createdAt: string, up: Script, down: Script): seq<string> {
    [TITLE + " " + name, "-- Created at: " + createdAt, UP_LINE, ""] + up + ["", DOWN_LINE, ""] + down
  }

  /** The glob `*[0-9]{10}-$name.sql` that looks for a migration of the same name. */
  predicate IsCreatedAs(n: string, name: string) {
    var tail := "-" + name + SUFFIX;
    |n| >= 10 + |tail| && n[|n| - |tail|..] == tail && AllDigits(n[|n| - |tail| - 10..|n| - |tail|])
  }

  ghost predicate MayCreate(names: set<string>, name: string) {
    ValidName(name) && forall n | n in names :: !IsCreatedAs(n, name)
  }

  // ---------- What is read back ----------

  lemma CutSnoc(front: seq<string>, line: string, since: string, till: string)
    ensures Cut(front + [line], since, till) ==
            Cut(front, since, till) +
            if (RangeOpen(front, since, till) || line == since) && !IsComment(line) then [line] else []
    ensures RangeOpen(front + [line], since, till) <==>
            if RangeOpen(front, since, till) then line != till else line == since
  {
    assert (front + [line])[..|front|] == front;
  }

  lemma {:induction false} CutOfPlainLines(front: seq<string>, lines: seq<string>, since: string, till: string)
    requires till !in lines
    requires RangeOpen(front, since, till)
    ensures Cut(front + lines, since, till) == Cut(front, since, till) + NonComments(lines)
    ensures RangeOpen(front + lines, since, till)
  {
    if lines == [] {
      assert front + lines == front;
    } else {
      var init, line := lines[..|lines| - 1], lines[|lines| - 1];
      CutOfPlainLines(front, init, since, till);
      CutSnoc(front + init, line, since, till);
      assert front + lines == front + init + [line];
      var kept := if IsComment(line) then [] else [line];
      assert Cut(front, since, till) + NonComments(init) + kept == Cut(front, since, till) + (NonComments(init) + kept);
    }
  }

  lemma {:induction false} CutOutside(front: seq<string>, lines: seq<string>, since: string, till: string)
    requires since !in lines
    requires !RangeOpen(front, since, till)
    ensures Cut(front + lines, since, till) == Cut(front, since, till)
    ensures !RangeOpen(front + lines, since, till)
  {
    if lines == [] {
      assert front + lines == front;
    } else {
      var init, line := lines[..|lines| - 1], lines[|lines| - 1];
      CutOutside(front, init, since, till);
      CutSnoc(front + init, line, since, till);
      assert front + lines == front + init + [line];
    }
  }

  lemma {:induction false} NonCommentsConcat(a: seq<string>, b: seq<string>)
    ensures NonComments(a + b) == NonComments(a) + NonComments(b)
  {
    if b == [] {
      assert a + b == a;
    } else {
      assert (a + b)[..|a + b| - 1] == a + b[..|b| - 1];
      NonCommentsConcat(a, b[..|b| - 1]);
    }
  }

  lemma {:induction false} NonCommentsOfPlain(a: seq<string>)
    requires forall i | 0 <= i < |a| :: !IsComment(a[i])
    ensures NonComments(a) == a
  {
    if a != [] {
      NonCommentsOfPlain(a[..|a| - 1]);
    }
  }

  /**
    Both sections of a generated file come back, between the blank lines of the layout and without
    comment lines, as long as neither body holds the marker that would end it.
   */
  lemma LayoutSections(name: string, createdAt: string, up: Script, down: Script)
    requires DOWN_LINE !in up && UP_LINE !in down
    ensures Cut(Layout(name, createdAt, up, down), UP_LINE, DOWN_LINE) == [""] + NonComments(up) + [""]
    ensures Cut(Layout(name, createdAt, up, down), DOWN_LINE, UP_LINE) == [""] + NonComments(down)
  {
    var title, created := TITLE + " " + name, "-- Created at: " + createdAt;
    assert title[..4] == "-- M" && created[..4] == "-- C";
    var a := [title, created];
    var upper, lower := [""] + up + [""], [""] + down;
    assert Layout(name, createdAt, up, down) == a + [UP_LINE] + upper + [DOWN_LINE] + lower;
    HeaderHasNoMarker(title, created);
    assert [title] + [created] == a;
    UpComesBack(a, upper, lower);
    DownComesBack(a, upper, lower);
    NonCommentsConcat([""] + up, [""]);
    NonCommentsConcat([""], up);
    NonCommentsConcat([""], down);
    NonCommentsOfPlain([""]);
  }

  lemma HeaderHasNoMarker(title: string, created: string)
    requires StartsWith(title, "-- M") && StartsWith(created, "-- C")
    ensures Cut([title] + [created], UP_LINE, DOWN_LINE) == Cut([title] + [created], DOWN_LINE, UP_LINE) == []
    ensures !RangeOpen([title] + [created], UP_LINE, DOWN_LINE) && !RangeOpen([title] + [created], DOWN_LINE, UP_LINE)
  {
    assert title[0] == created[0] == '-' && title[1] == created[1] == '-' && title[3] == 'M' && created[3] == 'C';
    assert UP_LINE[3] == DOWN_LINE[3] == '=';
    CutSnoc([], title, UP_LINE, DOWN_LINE);
    CutSnoc([title], created, UP_LINE, DOWN_LINE);
    CutSnoc([], title, DOWN_LINE, UP_LINE);
    CutSnoc([title], created, DOWN_LINE, UP_LINE);
    assert [] + [title] == [title];
  }

  lemma RangeBegins(front: seq<string>, inside: seq<string>, since: string, till: string)
    requires IsComment(since) && !RangeOpen(front, since, till) && till !in inside
    ensures Cut(front + [since] + inside, since, till) == Cut(front, since, till) + NonComments(inside)
    ensures RangeOpen(front + [since] + inside, since, till)
  {
    CutSnoc(front, since, since, till);
    CutOfPlainLines(front + [since], inside, since, till);
  }

  lemma RangeEnds(front: seq<string>, outside: seq<string>, since: string, till: string)
    requires IsComment(till) && RangeOpen(front, since, till) && since !in outside
    ensures Cut(front + [till] + outside, since, till) == Cut(front, since, till)
  {
    CutSnoc(front, till, since, till);
    CutOutside(front + [till], outside, since, till);
  }

  lemma UpComesBack(a: seq<string>, upper: seq<string>, lower: seq<string>)
    requires Cut(a, UP_LINE, DOWN_LINE) == [] && !RangeOpen(a, UP_LINE, DOWN_LINE)
    requires DOWN_LINE !in upper && UP_LINE !in lower
    ensures Cut(a + [UP_LINE] + upper + [DOWN_LINE] + lower, UP_LINE, DOWN_LINE) == NonComments(upper)
  {
    MarkersAreComments();
    RangeBegins(a, upper, UP_LINE, DOWN_LINE);
    RangeEnds(a + [UP_LINE] + upper, lower, UP_LINE, DOWN_LINE);
  }

  lemma DownComesBack(a: seq<string>, upper: seq<string>, lower: seq<string>)
    requires Cut(a, DOWN_LINE, UP_LINE) == [] && !RangeOpen(a, DOWN_LINE, UP_LINE)
    requires DOWN_LINE !in upper && UP_LINE !in lower
    ensures Cut(a + [UP_LINE] + upper + [DOWN_LINE] + lower, DOWN_LINE, UP_LINE) == NonComments(lower)
  {
    MarkersAreComments();
    var skipped := [UP_LINE] + upper;
    assert a + [UP_LINE] + upper == a + skipped;
    CutOutside(a, skipped, DOWN_LINE, UP_LINE);
    RangeBegins(a + skipped, lower, DOWN_LINE, UP_LINE);
  }

  lemma MarkersAreComments()
    ensures IsComment(UP_LINE) && IsComment(DOWN_LINE) && UP_LINE != DOWN_LINE
  {
    assert UP_LINE[8] != DOWN_LINE[8];
  }

  lemma SkipBlanksStops(s: string)
    requires s != [] && s[0] != ' '
    ensures SkipBlanks([' '] + s) == s
  {
    assert ([' '] + s)[1..] == s;
  }

  lemma {:induction false} SkipBlanksDrops(s: string)
    ensures SkipBlanks(s) != [] ==> SkipBlanks(s)[0] != ' '
    ensures |SkipBlanks(s)| <= |s|
  {
    if s != [] && s[0] == ' ' {
      SkipBlanksDrops(s[1..]);
    }
  }

  /** A generated file says its own name exactly when awk can tell the name from nothing. */
  lemma LayoutName(numbers: bool, path: string, name: string, createdAt: string, up: Script, down: Script)
    requires '/' in path && '/' !in name
    ensures MigrationName(numbers, path, Layout(name, createdAt, up, down)) == name <==>
            name != [] && name[0] != ' ' && !(numbers && IsNumericZero(name))
  {
    var lines := Layout(name, createdAt, up, down);
    assert lines[0] == TITLE + ([' '] + name);
    assert lines[0][|TITLE|..] == [' '] + name;
    if name != [] && name[0] != ' ' {
      SkipBlanksStops(name);
    } else {
      SkipBlanksDrops([' '] + name);
      assert ([' '] + name)[1..] == name;
    }
    assert path != name;
  }

  /** A generated file is a migration, and its version is the second it was generated in. */
  lemma FileNameIsDated(now: Version, name: string)
    ensures Dated(FileName(now, name)) && NameVersion(FileName(now, name)) == now
  {
    var n := FileName(now, name);
    var p, rest := Padded(now, 10), "-" + Underscored(name) + SUFFIX;
    assert n == p + rest;
    DigitRunOf(p, rest);
    TenDigits(now);
    assert n[..10] == p;
    assert n[0] == p[0];
  }

  lemma FileNameIsPlain(now: Version, name: string)
    requires ValidName(name)
    ensures '/' !in FileName(now, name)
  {
    var n := FileName(now, name);
    forall i | 0 <= i < |n| ensures n[i] != '/' {
      if i < 10 {
        assert n[i] == Padded(now, 10)[i];
      }
    }
  }

  /**
    Round trip: a file in the layout of `create`, stored under the name `create` gives it, is read back
    with the same version, name and bodies, the bodies between the blank lines of the layout.
   */
  lemma GenerateThenRead(numbers: bool, dir: string, now: Version, name: string, createdAt: string, up: Script,
                         down: Script)
    requires ValidName(name) && name[0] != ' ' && !(numbers && IsNumericZero(name))
    requires forall i | 0 <= i < |up| :: !IsComment(up[i])
    requires forall i | 0 <= i < |down| :: !IsComment(down[i])
    ensures var lines, path := Layout(name, createdAt, up, down), PathOf(dir, FileName(now, name));
      && MigrationVersion(path) == Padded(now, 10)
      && MigrationName(numbers, path, lines) == name
      && Cut(lines, UP_LINE, DOWN_LINE) == [""] + up + [""]
      && Cut(lines, DOWN_LINE, UP_LINE) == [""] + down
      && (Section(lines, UP_LINE, DOWN_LINE).None? <==> !HasText(up))
      && (Section(lines, DOWN_LINE, UP_LINE).None? <==> !HasText(down))
  {
    var path, n := PathOf(dir, FileName(now, name)), FileName(now, name);
    FileNameIsDated(now, name);
    FileNameIsPlain(now, name);
    VersionOfPath(dir, n);
    assert n[..10] == Padded(now, 10);
    assert path[|dir|] == '/';
    LayoutName(numbers, path, name, createdAt, up, down);
    assert IsComment(UP_LINE) && IsComment(DOWN_LINE);
    LayoutSections(name, createdAt, up, down);
    NonCommentsOfPlain(up);
    NonCommentsOfPlain(down);
    LineHasText([""] + up, "");
    BlankLineInFront(up);
    BlankLineInFront(down);
  }

  lemma BlankLineInFront(script: Script)
    ensures HasText([""] + script) <==> HasText(script)
  {
    var all := [""] + script;
    if HasText(all) {
      var i, j :| 0 <= i < |all| && 0 <= j < |all[i]| && IsTextChar(all[i][j]);
      assert script[i - 1] == all[i];
      assert IsTextChar(script[i - 1][j]);
    }
    if HasText(script) {
      var i, j :| 0 <= i < |script| && 0 <= j < |script[i]| && IsTextChar(script[i][j]);
      assert all[i + 1] == script[i];
      assert IsTextChar(all[i + 1][j]);
    }
  }

  /**
    The check for an existing name looks for the name as typed, while the file carries it with underscores:
    it refuses to create a name a second time exactly when the name has no space.
   */
  lemma CreateTwice(names: set<string>, now: Version, name: string)
    requires MayCreate(names, name)
    ensures MayCreate(names + {FileName(now, name)}, name) <==> ' ' in name
  {
    var n, tail := FileName(now, name), "-" + name + SUFFIX;
    var k := |n| - |tail|;
    assert k == 10 && n[..10] == Padded(now, 10);
    assert n[k - 10..k] == Padded(now, 10);
    assert n[k..] == "-" + Underscored(name) + SUFFIX;
    if ' ' in name {
      var i :| 0 <= i < |name| && name[i] == ' ';
      assert n[k..][1 + i] == '_' && tail[1 + i] == ' ';
    } else {
      assert Underscored(name) == name;
    }
  }

  /** A concrete name that is created twice over in an empty directory, and one that is not. */
  lemma CreatedTwice(now: Version)
    ensures MayCreate({}, "a b") && MayCreate({FileName(now, "a b")}, "a b")
    ensures MayCreate({}, "a") && !MayCreate({FileName(now, "a")}, "a")
  {
    assert "a b"[1] == ' ';
    CreateTwice({}, now, "a b");
    CreateTwice({}, now, "a");
    assert {} + {FileName(now, "a b")} == {FileName(now, "a b")};
    assert {} + {FileName(now, "a")} == {FileName(now, "a")};
  }

  /** The directory stays well named exactly when no other migration was generated in the same second. */
  lemma CreateKeepsWellNamed(names: set<string>, now: Version, name: string)
    requires WellNamed(names) && ValidName(name) && FileName(now, name) !in names
    ensures WellNamed(names + {FileName(now, name)}) <==> now !in VersionSet(names)
    ensures VersionSet(names + {FileName(now, name)}) == VersionSet(names) + {now}
  {
    var n := FileName(now, name);
    FileNameIsDated(now, name);
    FileNameIsPlain(now, name);
    var all := names + {n};
    if now in VersionSet(names) {
      var m :| m in names && Dated(m) && NameVersion(m) == now;
      assert m in all && n in all && m != n;
    } else {
      forall x, y | x in all && y in all && Dated(x) && Dated(y) && NameVersion(x) == NameVersion(y) ensures x == y {
        assert x in names ==> NameVersion(x) in VersionSet(names);
        assert y in names ==> NameVersion(y) in VersionSet(names);
      }
    }
    forall v | v in VersionSet(names) + {now} ensures v in VersionSet(all) {
      if v == now {
        assert n in all && Dated(n) && NameVersion(n) == v;
      } else {
        var m :| m in names && Dated(m) && NameVersion(m) == v;
        assert m in all;
      }
    }
  }
}
