/**
  Cutting a migration file into its UP and DOWN text: a sed range between two marker lines,
  comment lines dropped, and the section refused when nothing is left.
 */
module Sections {
  import opened Options

  type Script = seq<string>

  const UP_LINE := "-- ====  UP  ===="
  const DOWN_LINE := "-- ==== DOWN ===="

  predicate IsComment(line: string) {
    |line| >= 2 && line[0] == '-' && line[1] == '-'
  }

  lemma CommentShape(line: string)
    ensures IsComment(line) <==> exists rest :: line == "--" + rest
  {
    if IsComment(line) {
      assert line == "--" + line[2..];
    }
  }

  predicate IsMarker(line: string) {
    line == UP_LINE || line == DOWN_LINE
  }

  /** Is the range open after these lines? It opens at `since` when closed, and closes at `till` when open. */
  predicate RangeOpen(lines: seq<string>, since: string, till: string) {
    lines != [] &&
    var open := RangeOpen(lines[..|lines| - 1], since, till);
    var line := lines[|lines| - 1];
    if open then line != till else line == since
  }

  /** The lines of the ranges, markers and comments dropped. */
  function Cut(lines: seq<string>, since: string, till: string): Script {
    if lines == [] then []
    else
      var front, line := lines[..|lines| - 1], lines[|lines| - 1];
      Cut(front, since, till) +
      if (RangeOpen(front, since, till) || line == since) && !IsComment(line) then [line] else []
  }

  /**
    The pattern [^ \t] of grep -E: inside a bracket the backslash is an ordinary character,
    so a blank, a backslash and the letter t do not count as text.
   */
  predicate IsTextChar(c: char) {
    c != ' ' && c != '\\' && c != 't'
  }

  predicate HasText(script: Script) {
    exists i, j | 0 <= i < |script| && 0 <= j < |script[i]| :: IsTextChar(script[i][j])
  }

  /** `migration_section`: nothing when the section is missing or empty. */
  function Section(lines: seq<string>, since: string, till: string): Option<Script> {
    var script := Cut(lines, since, till);
    if HasText(script) then Some(script) else None
  }

  method MigrationSection(lines: seq<string>, since: string, till: string) returns (r: Option<Script>)
    ensures r == Section(lines, since, till)
  {
    var out: Script := [];
    var open := false;
    var i := 0;
    while i < |lines|
      invariant 0 <= i <= |lines|
      invariant open == RangeOpen(lines[..i], since, till)
      invariant out == Cut(lines[..i], since, till)
    {
      var line := lines[i];
      assert lines[..i + 1][..i] == lines[..i];
      var inside := open || line == since;
      open := if open then line != till else inside;
      if inside && !IsComment(line) {
        out := out + [line];
      }
      i := i + 1;
    }
    assert lines[..i] == lines;
    var found := false;
    i := 0;
    while i < |out| && !found
      invariant 0 <= i <= |out|
      invariant found <==> HasText(out[..i])
    {
      assert out[..i + 1][..i] == out[..i];
      found := exists j | 0 <= j < |out[i]| :: IsTextChar(out[i][j]);
      LineHasText(out[..i], out[i]);
      assert out[..i + 1] == out[..i] + [out[i]];
      i := i + 1;
    }
    if found {
      TextStays(out, i);
    } else {
      assert out[..i] == out;
    }
    r := if found then Some(out) else None;
  }

  lemma LineHasText(script: Script, line: string)
    ensures HasText(script + [line]) <==> HasText(script) || exists j | 0 <= j < |line| :: IsTextChar(line[j])
  {
    var all := script + [line];
    if HasText(all) {
      var i, j :| 0 <= i < |all| && 0 <= j < |all[i]| && IsTextChar(all[i][j]);
      assert i < |script| ==> all[i] == script[i];
    }
    if HasText(script) {
      var i, j :| 0 <= i < |script| && 0 <= j < |script[i]| && IsTextChar(script[i][j]);
      assert all[i] == script[i] && IsTextChar(all[i][j]);
    }
    if exists j | 0 <= j < |line| :: IsTextChar(line[j]) {
      var j :| 0 <= j < |line| && IsTextChar(line[j]);
      assert IsTextChar(all[|script|][j]);
    }
  }

  lemma TextStays(script: Script, k: nat)
    requires k <= |script| && HasText(script[..k])
    ensures HasText(script)
  {
    var i, j :| 0 <= i < k && 0 <= j < |script[..k][i]| && IsTextChar(script[..k][i][j]);
    assert IsTextChar(script[i][j]);
  }

  // ---------- Empty sections ----------

  predicate MadeOf(script: Script, chars: string) {
    forall i, j | 0 <= i < |script| && 0 <= j < |script[i]| :: script[i][j] in chars
  }

  predicate Holds(script: Script, chars: string) {
    exists i, j | 0 <= i < |script| && 0 <= j < |script[i]| :: script[i][j] in chars
  }

  /** What an empty section is meant to be: nothing but blanks and tabs. */
  predicate IsBlank(script: Script) {
    MadeOf(script, " \t")
  }

  /**
    A section should be refused when it is empty. The test gets this right except in two cases: it refuses text made of
    blanks, backslashes and the letter t, and it accepts blank lines with a tab in them.
   */
  lemma RefusedWhenEmpty(lines: seq<string>, since: string, till: string)
    ensures var script := Cut(lines, since, till);
      (Section(lines, since, till).None? <==> IsBlank(script)) <==>
        && !(MadeOf(script, " \\t") && Holds(script, "\\t"))
        && !(IsBlank(script) && Holds(script, "\t"))
  {
    var script := Cut(lines, since, till);
    RefusedMeans(script);
    if Holds(script, "\\t") {
      var i, j :| 0 <= i < |script| && 0 <= j < |script[i]| && script[i][j] in "\\t";
      assert script[i][j] !in " \t";
    }
    if Holds(script, "\t") {
      var i, j :| 0 <= i < |script| && 0 <= j < |script[i]| && script[i][j] in "\t";
      assert IsTextChar(script[i][j]);
    }
  }

  lemma RefusedMeans(script: Script)
    ensures HasText(script) <==> !MadeOf(script, " \\t")
    ensures !IsBlank(script) && !HasText(script) ==> Holds(script, "\\t")
    ensures IsBlank(script) && HasText(script) ==> Holds(script, "\t")
  {
    forall i, j | 0 <= i < |script| && 0 <= j < |script[i]|
      ensures IsTextChar(script[i][j]) <==> script[i][j] !in " \\t"
    {
    }
    if !MadeOf(script, " \\t") {
      var i, j :| 0 <= i < |script| && 0 <= j < |script[i]| && script[i][j] !in " \\t";
      assert IsTextChar(script[i][j]);
    }
    if !IsBlank(script) {
      var i, j :| 0 <= i < |script| && 0 <= j < |script[i]| && script[i][j] !in " \t";
      assert IsTextChar(script[i][j]) || script[i][j] in "\\t";
    }
    if HasText(script) {
      var i, j :| 0 <= i < |script| && 0 <= j < |script[i]| && IsTextChar(script[i][j]);
      assert script[i][j] in " \t" ==> script[i][j] in "\t";
    }
  }

  lemma OneLineSection(line: string)
    requires !IsComment(line)
    ensures Cut([UP_LINE, line], UP_LINE, DOWN_LINE) == [line]
  {
    var lines, none: seq<string> := [UP_LINE, line], [];
    var first := lines[..|lines| - 1];
    assert first == [UP_LINE] && first[..|first| - 1] == none;
    assert IsComment(UP_LINE);
    assert Cut(first, UP_LINE, DOWN_LINE) == [];
    assert RangeOpen(first, UP_LINE, DOWN_LINE);
  }

  /** A concrete file of the first case: its section holds a letter and is refused. */
  lemma RefusedWithText()
    ensures Section([UP_LINE, "t"], UP_LINE, DOWN_LINE) == None
    ensures !IsBlank(Cut([UP_LINE, "t"], UP_LINE, DOWN_LINE))
  {
    OneLineSection("t");
    assert ["t"][0][0] !in " \t";
  }

  /** A concrete file of the second case: its section is a tab and is accepted. */
  lemma AcceptedThoughBlank()
    ensures Section([UP_LINE, "\t"], UP_LINE, DOWN_LINE) == Some(["\t"]) && IsBlank(["\t"])
  {
    OneLineSection("\t");
    assert IsTextChar(["\t"][0][0]);
  }

  // ---------- The two sections of one file ----------

  datatype Owner = NoSection | UpSection | DownSection

  /** Whose lines follow: the last marker seen decides. */
  function LastMarker(lines: seq<string>): Owner {
    if lines == [] then NoSection
    else
      var line := lines[|lines| - 1];
      if line == UP_LINE then UpSection
      else if line == DOWN_LINE then DownSection
      else LastMarker(lines[..|lines| - 1])
  }

  /** Every non-comment line after a marker, in order, with the section that owns it. */
  function Owned(lines: seq<string>): (t: seq<(Owner, string)>)
    ensures forall i | 0 <= i < |t| :: !t[i].0.NoSection?
  {
    if lines == [] then []
    else
      var front, line := lines[..|lines| - 1], lines[|lines| - 1];
      Owned(front) +
      if LastMarker(front).NoSection? || IsComment(line) then [] else [(LastMarker(front), line)]
  }

  function OfOwner(t: seq<(Owner, string)>, o: Owner): Script {
    if t == [] then []
    else OfOwner(t[..|t| - 1], o) + if t[|t| - 1].0 == o then [t[|t| - 1].1] else []
  }

  function Texts(t: seq<(Owner, string)>): Script {
    if t == [] then [] else Texts(t[..|t| - 1]) + [t[|t| - 1].1]
  }

  function NonComments(lines: seq<string>): Script {
    if lines == [] then []
    else
      NonComments(lines[..|lines| - 1]) + if IsComment(lines[|lines| - 1]) then [] else [lines[|lines| - 1]]
  }

  /** The non-comment lines after the first marker. */
  function Body(lines: seq<string>): Script {
    if lines == [] then []
    else if IsMarker(lines[0]) then NonComments(lines[1..])
    else Body(lines[1..])
  }

  lemma {:induction false} RangesFollowLastMarker(lines: seq<string>)
    ensures RangeOpen(lines, UP_LINE, DOWN_LINE) <==> LastMarker(lines) == UpSection
    ensures RangeOpen(lines, DOWN_LINE, UP_LINE) <==> LastMarker(lines) == DownSection
  {
    assert UP_LINE[8] != DOWN_LINE[8];
    if lines != [] {
      RangesFollowLastMarker(lines[..|lines| - 1]);
    }
  }

  lemma {:induction false} SectionsAreOwned(lines: seq<string>)
    ensures Cut(lines, UP_LINE, DOWN_LINE) == OfOwner(Owned(lines), UpSection)
    ensures Cut(lines, DOWN_LINE, UP_LINE) == OfOwner(Owned(lines), DownSection)
  {
    assert IsComment(UP_LINE) && IsComment(DOWN_LINE);
    if lines != [] {
      var front, line := lines[..|lines| - 1], lines[|lines| - 1];
      SectionsAreOwned(front);
      RangesFollowLastMarker(front);
      var t := Owned(front) + [(LastMarker(front), line)];
      assert t[..|t| - 1] == Owned(front);
      assert Owned(lines) == if LastMarker(front).NoSection? || IsComment(line) then Owned(front) else t;
    }
  }

  lemma {:induction false} BodySnoc(lines: seq<string>, line: string)
    ensures Body(lines + [line]) ==
            Body(lines) + if LastMarker(lines).NoSection? || IsComment(line) then [] else [line]
    ensures LastMarker(lines).NoSection? <==> forall i | 0 <= i < |lines| :: !IsMarker(lines[i])
  {
    assert IsComment(UP_LINE) && IsComment(DOWN_LINE);
    NoMarkerSeen(lines);
    var all := lines + [line];
    if lines == [] {
      assert all[1..] == [];
    } else if IsMarker(lines[0]) {
      assert all[1..] == lines[1..] + [line];
      assert all[1..][..|all| - 2] == lines[1..];
    } else {
      assert all[1..] == lines[1..] + [line];
      BodySnoc(lines[1..], line);
      assert lines == [lines[0]] + lines[1..];
    }
  }

  lemma {:induction false} NoMarkerSeen(lines: seq<string>)
    ensures LastMarker(lines).NoSection? <==> forall i | 0 <= i < |lines| :: !IsMarker(lines[i])
  {
    if lines != [] {
      var front := lines[..|lines| - 1];
      NoMarkerSeen(front);
      assert lines == front + [lines[|lines| - 1]];
    }
  }

  lemma {:induction false} OwnedIsBody(lines: seq<string>)
    ensures Texts(Owned(lines)) == Body(lines)
  {
    if lines != [] {
      var front, line := lines[..|lines| - 1], lines[|lines| - 1];
      OwnedIsBody(front);
      BodySnoc(front, line);
      assert lines == front + [line];
      var t := Owned(front) + [(LastMarker(front), line)];
      assert t[..|t| - 1] == Owned(front);
      assert Owned(lines) == if LastMarker(front).NoSection? || IsComment(line) then Owned(front) else t;
    }
  }

  /**
    However many markers a file has and in whatever order, one owner is given to each non-comment line
    after the first marker, and the two sections are exactly the lines of the two owners, in order.
    Lines before the first marker are in neither.
   */
  lemma SectionPartition(lines: seq<string>)
    ensures Texts(Owned(lines)) == Body(lines)
    ensures Cut(lines, UP_LINE, DOWN_LINE) == OfOwner(Owned(lines), UpSection)
    ensures Cut(lines, DOWN_LINE, UP_LINE) == OfOwner(Owned(lines), DownSection)
    ensures multiset(Cut(lines, UP_LINE, DOWN_LINE)) + multiset(Cut(lines, DOWN_LINE, UP_LINE)) == multiset(Body(lines))
  {
    SectionsAreOwned(lines);
    OwnedIsBody(lines);
    OwnersShare(Owned(lines));
  }

  lemma {:induction false} OwnersShare(t: seq<(Owner, string)>)
    requires forall i | 0 <= i < |t| :: !t[i].0.NoSection?
    ensures multiset(OfOwner(t, UpSection)) + multiset(OfOwner(t, DownSection)) == multiset(Texts(t))
  {
    if t != [] {
      OwnersShare(t[..|t| - 1]);
    }
  }
}
