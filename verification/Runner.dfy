/**
  The runner itself: shell loops over file names and query output, working on a directory of text files,
  a version table and a schema. Every command is proved to do what `Plans` says.
 */
module Runner {
  import opened Options
  import opened Orders
  import opened Text
  import opened MigrationFiles
  import opened Sections
  import opened Arguments
  import opened Plans
  import opened Unanswered

  function FileOf(lines: seq<string>): File {
    File(Section(lines, UP_LINE, DOWN_LINE), Section(lines, DOWN_LINE, UP_LINE))
  }

  /** The migrations of a directory by version. */
  ghost function Load(files: map<string, seq<string>>): (c: Catalog)
    requires WellNamed(files.Keys)
    ensures c.Keys == VersionSet(files.Keys)
    ensures forall n | n in files && Dated(n) :: NameVersion(n) in c && c[NameVersion(n)] == FileOf(files[n])
  {
    map n | n in files && Dated(n) :: NameVersion(n) := FileOf(files[n])
  }

  /** The number a query result stands for. */
  function QueryNumber(text: string): nat {
    var t := SkipBlanks(text);
    if AllDigits(t) then Value(t) else 0
  }

  lemma QueryText(kind: DbType, v: Version)
    ensures SkipBlanks(VersionText(kind, v)) == Padded(v, 10) && QueryNumber(VersionText(kind, v)) == v
  {
    var p := Padded(v, 10);
    TenDigits(v);
    assert IsDigit(p[0]);
    assert (" " + p)[1..] == p;
  }

  /** Where the loop of `migrate` breaks off. */
  predicate Stops(d: Direction, till: Option<nat>, v: Version) {
    till.Some? && if d.Up? then v > till.value else v < till.value
  }

  ghost function Source(d: Direction, avail: set<Version>, recorded: set<Version>, steps: Option<nat>): seq<Version> {
    Plan(d, avail, recorded, Limits(steps, None))
  }

  /** Breaking off at the stop version leaves of the source exactly the plan. */
  lemma StopCutsSource(d: Direction, avail: set<Version>, recorded: set<Version>, l: Limits)
    ensures var p, q := Plan(d, avail, recorded, l), Source(d, avail, recorded, l.steps);
      && p <= q
      && (forall i | 0 <= i < |p| :: !Stops(d, l.till, q[i]))
      && (|p| < |q| ==> Stops(d, l.till, q[|p|]))
  {
    if d.Up? {
      var s := set v | v in avail && v > Newest(recorded) && NotBeyond(None, v);
      var t := set v | v in avail && v > Newest(recorded) && NotBeyond(l.till, v);
      LowerPartIsPrefix(t, s);
      AscFacts(s);
      AscFacts(t);
      forall v | v in Asc(s) ensures v in t <==> !Stops(d, l.till, v) {
        assert v in Elems(Asc(s));
      }
      ListingCut(d, l, Asc(t), Asc(s), t);
    } else {
      var s, t := Revertible(avail, recorded, None), Revertible(avail, recorded, l.till);
      UpperPartIsPrefix(t, s);
      DescFacts(s);
      DescFacts(t);
      forall v | v in Desc(s) ensures v in t <==> !Stops(d, l.till, v) {
        assert v in Elems(Desc(s));
      }
      ListingCut(d, l, Desc(t), Desc(s), t);
    }
  }

  lemma BeyondPrefix(p: seq<Version>, q: seq<Version>)
    requires p <= q
    requires forall i, j | 0 <= i < j < |q| :: q[i] != q[j]
    ensures forall i | 0 <= i < |q| :: q[i] in p <==> i < |p|
  {
    forall i | 0 <= i < |q| ensures q[i] in p <==> i < |p| {
      if i < |p| {
        assert p[i] == q[i];
      } else {
        forall j | 0 <= j < |p| ensures p[j] != q[i] {
          assert p[j] == q[j];
        }
      }
    }
  }

  lemma ListingCut(d: Direction, l: Limits, p: seq<Version>, q: seq<Version>, t: set<Version>)
    requires p <= q && Elems(p) == t
    requires forall i, j | 0 <= i < j < |q| :: q[i] != q[j]
    requires forall v | v in q :: v in t <==> !Stops(d, l.till, v)
    ensures var p', q' := FirstN(l.steps, p), FirstN(l.steps, q);
      && p' <= q'
      && (forall i | 0 <= i < |p'| :: !Stops(d, l.till, q'[i]))
      && (|p'| < |q'| ==> Stops(d, l.till, q'[|p'|]))
  {
    forall i | 0 <= i < |p| ensures !Stops(d, l.till, q[i]) {
      assert q[i] == p[i] && p[i] in Elems(p) && q[i] in q;
    }
    if |p| < |q| {
      BeyondPrefix(p, q);
      assert q[|p|] in q && q[|p|] !in Elems(p);
    }
  }

  /** What `previous_migrations` prints before it meets a version without a file. */
  lemma DownSource(avail: set<Version>, recorded: set<Version>, steps: Option<nat>, k: nat)
    requires var q := FirstN(steps, Desc(recorded));
      k <= |q| && (forall i | 0 <= i < k :: q[i] in avail) && (k < |q| ==> q[k] !in avail)
    ensures FirstN(steps, Desc(recorded))[..k] == Source(Down, avail, recorded, steps)
  {
    var all, part := Desc(recorded), Desc(Revertible(avail, recorded, None));
    var q := FirstN(steps, all);
    if k > 0 {
      assert forall j | 0 <= j <= k - 1 :: all[j] == q[j];
      RevertibleListing(avail, recorded, k - 1);
    }
    if k < |q| {
      RevertibleListing(avail, recorded, k);
    }
    UpperPartIsPrefix(Revertible(avail, recorded, None), recorded);
    CutPrefix(steps, part, all, k);
  }

  lemma CutPrefix(steps: Option<nat>, part: seq<Version>, all: seq<Version>, k: nat)
    requires part <= all && k <= |FirstN(steps, all)| && k <= |part|
    requires k < |FirstN(steps, all)| ==> |part| <= k
    ensures FirstN(steps, all)[..k] == FirstN(steps, part)
  {
  }

  /** A recorded version is revertible when every one from the newest down to it has a file. */
  lemma RevertibleListing(avail: set<Version>, recorded: set<Version>, i: nat)
    requires i < |Desc(recorded)|
    ensures i < |Desc(Revertible(avail, recorded, None))| <==> forall j | 0 <= j <= i :: Desc(recorded)[j] in avail
  {
    var all, r := Desc(recorded), Revertible(avail, recorded, None);
    var part := Desc(r);
    UpperPartIsPrefix(r, recorded);
    DescFacts(r);
    DescFacts(recorded);
    BeyondPrefix(part, all);
    assert all[i] in part <==> all[i] in Elems(part);
    if i < |part| {
      forall j | 0 <= j <= i ensures all[j] in avail {
        assert all[j] == part[j] && part[j] in Elems(part);
      }
    }
    if forall j | 0 <= j <= i :: all[j] in avail {
      AvailableToTheTop(avail, recorded, i);
    }
  }

  lemma AvailableToTheTop(avail: set<Version>, recorded: set<Version>, i: nat)
    requires i < |Desc(recorded)| && forall j | 0 <= j <= i :: Desc(recorded)[j] in avail
    ensures Desc(recorded)[i] in Revertible(avail, recorded, None)
  {
    var all := Desc(recorded);
    DescFacts(recorded);
    assert all[i] in Elems(all);
    forall u | u in recorded && u >= all[i] ensures u in avail {
      assert u in Elems(all);
      var j :| 0 <= j < |all| && all[j] == u;
    }
  }

  lemma ListsAvailable(dir: string, names: set<string>, paths: seq<string>, plan: seq<Version>)
    requires Lists(dir, names, paths, plan)
    ensures forall i | 0 <= i < |plan| :: plan[i] in VersionSet(names)
  {
    forall i | 0 <= i < |plan| ensures plan[i] in VersionSet(names) {
      var n := BaseName(paths[i]);
      assert n in names && Dated(n) && NameVersion(n) == plan[i];
    }
  }

  lemma UpSource(key: string -> real, dir: string, names: set<string>, listing: seq<string>, recorded: set<Version>,
                 limit: Option<nat>)
    requires WellNamed(names) && IsListing(key, dir, names, listing)
    ensures var paths := FirstN(limit, PendingPaths(listing, Newest(recorded)));
      Lists(dir, names, paths, Source(Up, VersionSet(names), recorded, limit))
  {
    PendingIsAboveLast(key, dir, names, listing, Newest(recorded));
    assert Above(VersionSet(names), Newest(recorded))
        == set v | v in VersionSet(names) && v > Newest(recorded) && NotBeyond(None, v);
  }

  class Shmig<S(!new)> {
    const kind: DbType
    const dir: string
    const sortKey: string -> real
    const run: Engine<S>
    var files: map<string, seq<string>>
    var versions: set<Version>
    var schema: S

    constructor (kind: DbType, dir: string, sortKey: string -> real, run: Engine<S>,
                 files: map<string, seq<string>>, versions: set<Version>, schema: S)
      requires WellNamed(files.Keys)
      ensures Valid() && this.kind == kind && this.run == run && this.files == files
      ensures Current() == State(versions, schema)
    {
      this.kind, this.dir, this.sortKey, this.run := kind, dir, sortKey, run;
      this.files, this.versions, this.schema := files, versions, schema;
    }

    ghost predicate Valid()
      reads this
    {
      WellNamed(files.Keys)
    }

    ghost function Current(): State<S>
      reads this
    {
      State(versions, schema)
    }

    /** `select version ... order by version desc limit n`, which prints nothing when the client fails */
    method PreviousVersions(limit: Option<nat>, answered: bool) returns (texts: seq<string>)
      ensures var q := FirstN(limit, Desc(Seen(answered, versions)));
        |texts| == |q| && forall i | 0 <= i < |q| :: texts[i] == VersionText(kind, q[i])
    {
      texts := [];
      if !answered {
        return;
      }
      var rest := versions;
      ghost var q: seq<Version> := [];
      while rest != {} && (limit.None? || |texts| < limit.value)
        invariant rest <= versions
        invariant q + Desc(rest) == Desc(versions)
        invariant limit.Some? ==> |texts| <= limit.value
        invariant |texts| == |q| && forall i | 0 <= i < |q| :: texts[i] == VersionText(kind, q[i])
        decreases rest
      {
        MaxExists(rest);
        var v :| v in rest && forall u | u in rest :: u <= v;
        assert v == Max(rest);
        assert q + Desc(rest) == (q + [v]) + Desc(rest - {v});
        q := q + [v];
        texts := texts + [VersionText(kind, v)];
        rest := rest - {v};
      }
      assert q == FirstN(limit, Desc(versions));
    }

    /** The newest recorded version, 0 for none or no answer: `last` of `pending_migrations`. */
    method LastVersion(answered: bool) returns (last: nat)
      ensures last == Newest(Seen(answered, versions))
    {
      var texts := PreviousVersions(Some(1), answered);
      last := if texts == [] then 0 else QueryNumber(texts[0]);
      if answered && versions != {} {
        QueryText(kind, Max(versions));
      }
    }

    /** `pending_migrations` */
    method PendingMigrations(limit: Option<nat>, answered: bool) returns (paths: seq<string>)
      requires Valid()
      ensures Lists(dir, files.Keys, paths,
                    Source(Direction.Up, Load(files).Keys, Seen(answered, versions), limit))
    {
      var last := LastVersion(answered);
      var listing := Listing(sortKey, dir, files.Keys);
      paths := FilterPending(dir, files.Keys, listing, last, if limit.None? then -1 else limit.value);
      UpSource(sortKey, dir, files.Keys, listing, Seen(answered, versions), limit);
    }

    /** `read version`, which drops a leading blank, and `find -name "<version>-*.sql"` */
    method FindMigration(line: string, ghost v: Version) returns (name: Option<string>)
      requires Valid() && line == VersionText(kind, v)
      ensures name.None? ==> v !in VersionSet(files.Keys)
      ensures name.Some? ==> name.value in files && Dated(name.value) && NameVersion(name.value) == v
    {
      var text := SkipBlanks(line);
      QueryText(kind, v);
      forall n | n in files ensures MatchesGlob(text, n) <==> Dated(n) && NameVersion(n) == v {
        GlobFindsVersion(files.Keys, v, n);
      }
      var found := set n | n in files && MatchesGlob(text, n);
      if found == {} {
        assert forall n | n in files :: !MatchesGlob(text, n) by {
          forall n | n in files ensures !MatchesGlob(text, n) {
            assert n !in found;
          }
        }
        return None;
      }
      var n :| n in found;
      return Some(n);
    }

    /** The loop of `previous_migrations` over the query output: it dies at the first version without a file. */
    method FindAll(texts: seq<string>, ghost q: seq<Version>) returns (paths: seq<string>)
      requires Valid()
      requires |texts| == |q| && forall i | 0 <= i < |q| :: texts[i] == VersionText(kind, q[i])
      ensures |paths| <= |q| && Lists(dir, files.Keys, paths, q[..|paths|])
      ensures |paths| < |q| ==> q[|paths|] !in VersionSet(files.Keys)
    {
      paths := [];
      var i := 0;
      while i < |texts|
        invariant 0 <= i <= |q|
        invariant Lists(dir, files.Keys, paths, q[..i])
      {
        var name := FindMigration(texts[i], q[i]);
        if name.None? {
          break;
        }
        ListsSnoc(dir, files.Keys, paths, q[..i], name.value);
        assert q[..i + 1] == q[..i] + [q[i]];
        paths := paths + [PathOf(dir, name.value)];
        i := i + 1;
      }
    }

    /** `previous_migrations` */
    method PreviousMigrations(limit: Option<nat>, answered: bool) returns (paths: seq<string>)
      requires Valid()
      ensures Lists(dir, files.Keys, paths,
                    Source(Direction.Down, Load(files).Keys, Seen(answered, versions), limit))
    {
      var texts := PreviousVersions(limit, answered);
      ghost var q := FirstN(limit, Desc(Seen(answered, versions)));
      paths := FindAll(texts, q);
      ghost var k := |paths|;
      ListsAvailable(dir, files.Keys, paths, q[..k]);
      assert forall j | 0 <= j < k :: q[j] == q[..k][j];
      DownSource(Load(files).Keys, Seen(answered, versions), limit, k);
    }

    /** The pipeline of one round of `migrate`: section, then version row, into the database client. */
    method Pipe(me: Direction, n: string, fault: Fault) returns (ok: bool)
      requires Valid() && n in files && Dated(n)
      modifies this`versions, this`schema
      ensures Result(Current(), ok) == Migrate1(run, FileOf(files[n]), me, NameVersion(n), old(Current()), fault)
    {
      var section;
      if me.Up? {
        section := MigrationSection(files[n], UP_LINE, DOWN_LINE);
      } else {
        section := MigrationSection(files[n], DOWN_LINE, UP_LINE);
      }
      if section.None? || fault == BeforeSection(0) {
        return false;
      }
      var outcome := run(section.value, schema);
      if outcome.None? {
        return false;
      }
      schema := outcome.value;
      var version := NameVersion(n);
      if fault == BeforeRow(0) || (me.Up? && version in versions) {
        return false;
      }
      versions := if me.Up? then versions + {version} else versions - {version};
      return true;
    }

    /** `migrate`: the loop that `up` and `down` share. */
    method Migrate(me: Direction, args: seq<string>, answered: bool, fault: Fault) returns (ok: bool)
      requires Valid()
      modifies this`versions, this`schema
      ensures Result(Current(), ok) == UpOrDownSeeing(run, Load(files), me, args, answered, old(Current()), fault)
    {
      var limits := ReadOptions(me, args);
      if limits.None? {
        return false;
      }
      var Limits(steps, stopver) := limits.value;
      var source;
      if me.Up? {
        source := PendingMigrations(steps, answered);
      } else {
        source := PreviousMigrations(steps, answered);
      }
      ghost var catalog := Load(files);
      ghost var seen := Seen(answered, versions);
      ghost var plan := Plan(me, catalog.Keys, seen, limits.value);
      StopCutsSource(me, catalog.Keys, seen, limits.value);
      PlanIsAvailable(me, catalog.Keys, seen, limits.value);
      ok := Loop(me, stopver, source, plan, Source(me, catalog.Keys, seen, steps), fault);
    }

    method Loop(me: Direction, stopver: Option<nat>, source: seq<string>, ghost plan: seq<Version>,
                ghost all: seq<Version>, fault: Fault) returns (ok: bool)
      requires Valid() && Lists(dir, files.Keys, source, all) && plan <= all
      requires forall v | v in plan :: v in Load(files)
      requires forall i | 0 <= i < |plan| :: !Stops(me, stopver, all[i])
      requires |plan| < |all| ==> Stops(me, stopver, all[|plan|])
      modifies this`versions, this`schema
      ensures Result(Current(), ok) == Execute(run, Load(files), me, plan, old(Current()), fault)
    {
      var trouble := fault;
      var i := 0;
      while i < |source|
        invariant 0 <= i <= |plan|
        invariant Execute(run, Load(files), me, plan[i..], Current(), trouble)
               == Execute(run, Load(files), me, plan, old(Current()), fault)
      {
        var n := BaseName(source[i]);
        VersionOfPath(dir, n);
        var version := Value(MigrationVersion(source[i]));
        if Stops(me, stopver, version) {
          break;
        }
        assert version == plan[i] && plan[i..][0] == plan[i] && plan[i..][1..] == plan[i + 1..];
        ok := Pipe(me, n, trouble);
        if !ok {
          return;
        }
        trouble := trouble.Next();
        i := i + 1;
      }
      assert plan[i..] == [];
      ok := true;
    }

    method Up(args: seq<string>, answers: Answers, fault: Fault) returns (ok: bool)
      requires Valid()
      modifies this`versions, this`schema
      ensures Result(Current(), ok) ==
              PerformSeeing(run, kind, Load(files), UpCommand(args), answers, old(Current()), fault, NoFault)
    {
      ok := Migrate(Direction.Up, args, answers.up, fault);
    }

    method Down(args: seq<string>, answers: Answers, fault: Fault) returns (ok: bool)
      requires Valid()
      modifies this`versions, this`schema
      ensures Result(Current(), ok) ==
              PerformSeeing(run, kind, Load(files), DownCommand(args), answers, old(Current()), fault, NoFault)
    {
      ok := Migrate(Direction.Down, args, answers.down, fault);
    }

    method Rollback(args: seq<string>, answers: Answers, fault: Fault) returns (ok: bool)
      requires Valid()
      modifies this`versions, this`schema
      ensures Result(Current(), ok) ==
              PerformSeeing(run, kind, Load(files), RollbackCommand(args), answers, old(Current()), fault, NoFault)
    {
      if |args| > 1 {
        return false;
      }
      var count := if args == [] || args[0] == "" then "1" else args[0];
      ok := Migrate(Direction.Down, [STEPS + count], answers.down, fault);
    }

    method Redo(args: seq<string>, answers: Answers, fault: Fault, second: Fault) returns (ok: bool)
      requires Valid()
      modifies this`versions, this`schema
      ensures Result(Current(), ok) ==
              PerformSeeing(run, kind, Load(files), RedoCommand(args), answers, old(Current()), fault, second)
    {
      var current := PreviousVersions(Some(1), answers.own);
      if current == [] {
        return true;
      }
      assert current[0] == VersionText(kind, Max(versions));
      ok := Migrate(Direction.Down, args, answers.down, fault);
      if ok {
        ok := Migrate(Direction.Up, [current[0]], answers.up, second);
      }
    }
  }
}
