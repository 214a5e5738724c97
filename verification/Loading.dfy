/** From the text of a migration file to the schema: which lines a command runs. */
module Loading {
  import opened Options
  import opened Orders
  import opened Arguments
  import opened MigrationFiles
  import opened Sections
  import opened Generate
  import opened Plans
  import opened Discipline
  import opened Unanswered
  import opened Runner

  /** A section with its comments dropped, if it has text. */
  function Used(script: Script): Option<Script> {
    if HasText(NonComments(script)) then Some(NonComments(script)) else None
  }

  /** A comment begins with two dashes. */
  lemma {:induction false} DroppedLines(lines: seq<string>, line: string)
    ensures NonComments(lines + [line]) ==
            NonComments(lines) + if |line| >= 2 && line[..2] == "--" then [] else [line]
  {
    assert (lines + [line])[..|lines|] == lines;
    assert |line| >= 2 ==> line[..2][0] == line[0] && line[..2][1] == line[1];
  }

  /**
    Of a file with one marker of each kind, UP first, `up` runs the lines between them and `down` the lines behind,
    whatever stands in front.
   */
  lemma FileLoads(front: seq<string>, up: Script, down: Script)
    requires forall lines | lines in [front, up, down] :: "-- ====  UP  ====" !in lines && "-- ==== DOWN ====" !in lines
    ensures FileOf(front + ["-- ====  UP  ===="] + up + ["-- ==== DOWN ===="] + down) == File(Used(up), Used(down))
  {
    var lines := front + ["-- ====  UP  ===="] + up + ["-- ==== DOWN ===="] + down;
    assert front in [front, up, down] && up in [front, up, down] && down in [front, up, down];
    var none: seq<string> := [];
    CutOutside(none, front, UP_LINE, DOWN_LINE);
    CutOutside(none, front, DOWN_LINE, UP_LINE);
    assert none + front == front;
    UpComesBack(front, up, down);
    DownComesBack(front, up, down);
  }

  /** What `create` writes, with its templates filled in, is such a file. */
  lemma GeneratedFile(name: string, createdAt: string, up: Script, down: Script)
    ensures Layout(name, createdAt, up, down) ==
            ["-- Migration: " + name, "-- Created at: " + createdAt] + ["-- ====  UP  ===="] + ([""] + up + [""]) +
            ["-- ==== DOWN ===="] + ([""] + down)
  {
    assert TITLE + " " == "-- Migration: ";
    assert TITLE + " " + name == "-- Migration: " + name;
  }

  /** It loads as its two bodies, each between or behind the blank lines of the layout. */
  lemma GeneratedFileLoads(name: string, createdAt: string, up: Script, down: Script)
    requires forall i | 0 <= i < |up| :: !IsComment(up[i])
    requires forall i | 0 <= i < |down| :: !IsComment(down[i])
    ensures FileOf(Layout(name, createdAt, up, down)) ==
            File(if HasText(up) then Some([""] + up + [""]) else None,
                 if HasText(down) then Some([""] + down) else None)
  {
    LayoutSections(name, createdAt, up, down);
    NonCommentsOfPlain(up);
    NonCommentsOfPlain(down);
    LineHasText([""] + up, "");
    BlankLineInFront(up);
    BlankLineInFront(down);
  }

  lemma LoadOne(n: string, lines: seq<string>)
    requires Dated(n) && '/' !in n
    ensures WellNamed({n}) && Load(map[n := lines]) == map[NameVersion(n) := FileOf(lines)]
  {
    var files := map[n := lines];
    assert files.Keys == {n};
    assert n in files && Dated(n);
  }

  /** What a section leaves of a schema, and whether it ran. */
  function Ran<S>(outcome: Option<S>, before: State<S>, versions: set<Version>): Result<S> {
    match outcome
    case None => Result(before, false)
    case Some(schema) => Result(State(versions, schema), true)
  }

  /** In a directory with one migration, `up` runs its UP lines, `down` its DOWN lines. */
  lemma OneMigration<S>(run: Engine<S>, kind: DbType, n: string, front: seq<string>, up: Script, down: Script,
                        schema: S)
    requires Dated(n) && '/' !in n
    requires forall lines | lines in [front, up, down] :: "-- ====  UP  ====" !in lines && "-- ==== DOWN ====" !in lines
    requires HasText(NonComments(up)) && HasText(NonComments(down))
    ensures WellNamed({n})
    ensures var v := NameVersion(n);
      var files := Load(map[n := front + ["-- ====  UP  ===="] + up + ["-- ==== DOWN ===="] + down]);
      && PerformSeeing(run, kind, files, UpCommand([]), ANSWERED, State({}, schema), NoFault, NoFault) ==
         Ran(run(NonComments(up), schema), State({}, schema), {v})
      && PerformSeeing(run, kind, files, DownCommand([]), ANSWERED, State({v}, schema), NoFault, NoFault) ==
         Ran(run(NonComments(down), schema), State({v}, schema), {})
  {
    var v := NameVersion(n);
    var lines := front + ["-- ====  UP  ===="] + up + ["-- ==== DOWN ===="] + down;
    FileLoads(front, up, down);
    LoadOne(n, lines);
    RunsOne(run, kind, FileOf(lines), v, schema);
  }

  lemma RunsOne<S>(run: Engine<S>, kind: DbType, f: File, v: Version, schema: S)
    requires f.up.Some? && f.down.Some?
    ensures PerformSeeing(run, kind, map[v := f], UpCommand([]), ANSWERED, State({}, schema), NoFault, NoFault) ==
            Ran(run(f.up.value, schema), State({}, schema), {v})
    ensures PerformSeeing(run, kind, map[v := f], DownCommand([]), ANSWERED, State({v}, schema), NoFault, NoFault) ==
            Ran(run(f.down.value, schema), State({v}, schema), {})
  {
    OneFileRuns(run, f, v, Up, State({}, schema), NoFault);
    OneFileRuns(run, f, v, Down, State({v}, schema), NoFault);
    AllAnswered(run, kind, map[v := f], UpCommand([]), State({}, schema), NoFault, NoFault);
    AllAnswered(run, kind, map[v := f], DownCommand([]), State({v}, schema), NoFault, NoFault);
    assert {} + {v} == {v} && {v} - {v} == {};
  }

  /** `create`, the bodies filled in, then `up` on a new database: the body of UP has run, between two blank lines. */
  method CreateThenUp<S(!new)>(run: Engine<S>, kind: DbType, dir: string, sortKey: string -> real, now: Version,
                               name: string, createdAt: string, up: Script, down: Script, schema: S)
      returns (shmig: Shmig<S>, ok: bool)
    requires ValidName(name) && HasText(up) && HasText(down)
    requires forall i | 0 <= i < |up| :: !IsComment(up[i])
    requires forall i | 0 <= i < |down| :: !IsComment(down[i])
    ensures Result(shmig.Current(), ok) == Ran(run([""] + up + [""], schema), State({}, schema), {now})
  {
    var n, lines := FileName(now, name), Layout(name, createdAt, up, down);
    FileNameIsDated(now, name);
    FileNameIsPlain(now, name);
    LoadOne(n, lines);
    assert map[n := lines].Keys == {n};
    GeneratedFileLoads(name, createdAt, up, down);
    RunsOne(run, kind, FileOf(lines), now, schema);
    shmig := new Shmig(kind, dir, sortKey, run, map[n := lines], {}, schema);
    ok := shmig.Up([], ANSWERED, NoFault);
  }

  /** Concretely: the first migration of the program creates its table with `up` and drops it with `down`. */
  lemma CreateAssociations()
    ensures FileOf(["-- ====  UP  ====", "CREATE TABLE associations(id integer);", "", "-- ==== DOWN ====",
                    "DROP TABLE associations;"]) ==
            File(Some(["CREATE TABLE associations(id integer);", ""]), Some(["DROP TABLE associations;"]))
  {
    var create, drop := "CREATE TABLE associations(id integer);", "DROP TABLE associations;";
    var up, down := [create, ""], [drop];
    assert create[0] == 'C' && drop[0] == 'D' && UP_LINE[0] == DOWN_LINE[0] == '-';
    FileLoads([], up, down);
    assert [] + ["-- ====  UP  ===="] + up + ["-- ==== DOWN ===="] + down ==
           ["-- ====  UP  ====", create, "", "-- ==== DOWN ====", drop];
    NonCommentsOfPlain(up);
    NonCommentsOfPlain(down);
    assert IsTextChar(up[0][0]) && IsTextChar(down[0][0]);
  }
}
