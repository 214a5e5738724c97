/**
  The schema a version table stands for, and what one command does to the agreement between the two.
 */
module Replay {
  import opened Options
  import opened Orders
  import opened Arguments
  import opened Plans
  import opened Discipline

  function ApplyUp<S>(run: Engine<S>, files: Catalog, v: Version, schema: S): Option<S> {
    if v in files && files[v].up.Some? then run(files[v].up.value, schema) else None
  }

  /** The UP sections of the versions, run one after the other on the empty database. */
  function Replay<S>(run: Engine<S>, files: Catalog, q: seq<Version>, base: S): Option<S> {
    if q == [] then Some(base)
    else
      match Replay(run, files, q[..|q| - 1], base)
      case None => None
      case Some(schema) => ApplyUp(run, files, q[|q| - 1], schema)
  }

  /** The schema that a record stands for: its versions replayed in ascending order. */
  ghost function Rebuilt<S>(run: Engine<S>, files: Catalog, recorded: set<Version>, base: S): Option<S> {
    Replay(run, files, Asc(recorded), base)
  }

  /** The assumption on a migration: where both its sections run, DOWN undoes UP. */
  ghost predicate DownUndoesUp<S(!new)>(run: Engine<S>, f: File) {
    f.up.Some? && f.down.Some? ==>
      forall s: S :: var t := run(f.up.value, s);
        t.Some? ==> var u := run(f.down.value, t.value); u.Some? ==> u.value == s
  }

  ghost predicate Lawful<S(!new)>(run: Engine<S>, files: Catalog) {
    forall v | v in files :: DownUndoesUp(run, files[v])
  }

  ghost predicate Agrees<S>(run: Engine<S>, base: S, files: Catalog, st: State<S>) {
    st.versions <= files.Keys && Rebuilt(run, files, st.versions, base) == Some(st.schema)
  }

  function ApplyDown<S>(run: Engine<S>, files: Catalog, v: Version, schema: S): Option<S> {
    if v in files && files[v].down.Some? then run(files[v].down.value, schema) else None
  }

  /** The version whose section has run, while its row has not followed. */
  ghost predicate IsAhead<S>(run: Engine<S>, base: S, avail: set<Version>, files: Catalog, d: Direction, st: State<S>,
                             v: Version) {
    var s := Rebuilt(run, files, st.versions, base);
    && st.versions <= files.Keys && s.Some? && MayTake(d, avail, st.versions, v)
    && match d
       case Up => ApplyUp(run, files, v, s.value) == Some(st.schema)
       case Down =>
         && ApplyDown(run, files, v, s.value) == Some(st.schema)
         && Rebuilt(run, files, st.versions - {v}, base) == Some(st.schema)
  }

  /** One migration ahead of the record. */
  ghost predicate OneAhead<S>(run: Engine<S>, base: S, avail: set<Version>, files: Catalog, d: Direction,
                              st: State<S>) {
    exists v :: IsAhead(run, base, avail, files, d, st, v)
  }

  ghost predicate Covers(files: Catalog, all: Catalog) {
    forall v | v in files :: v in all && all[v] == files[v]
  }

  lemma RebuiltAbove<S>(run: Engine<S>, files: Catalog, recorded: set<Version>, base: S, v: Version)
    requires forall u | u in recorded :: u < v
    ensures Rebuilt(run, files, recorded + {v}, base) ==
            match Rebuilt(run, files, recorded, base)
            case None => None
            case Some(s) => ApplyUp(run, files, v, s)
  {
    AscSnoc(recorded, v);
    var q := Asc(recorded) + [v];
    assert q[..|q| - 1] == Asc(recorded);
  }

  lemma RebuiltTop<S>(run: Engine<S>, files: Catalog, recorded: set<Version>, base: S)
    requires recorded != {}
    ensures Rebuilt(run, files, recorded, base) ==
            match Rebuilt(run, files, recorded - {Max(recorded)}, base)
            case None => None
            case Some(s) => ApplyUp(run, files, Max(recorded), s)
  {
    var m := Max(recorded);
    RebuiltAbove(run, files, recorded - {m}, base, m);
    assert recorded - {m} + {m} == recorded;
  }

  /** A replay looks only at the files of the versions it replays. */
  lemma {:induction false} ReplayLocal<S>(run: Engine<S>, a: Catalog, b: Catalog, q: seq<Version>, base: S)
    requires forall v | v in q && v in a :: v in b && a[v] == b[v]
    requires forall v | v in q :: v in a
    ensures Replay(run, a, q, base) == Replay(run, b, q, base)
  {
    if q != [] {
      ReplayLocal(run, a, b, q[..|q| - 1], base);
    }
  }

  lemma AgreesLocal<S>(run: Engine<S>, base: S, a: Catalog, b: Catalog, st: State<S>)
    requires Agrees(run, base, a, st)
    requires forall v | v in st.versions :: v in b && a[v] == b[v]
    ensures Agrees(run, base, b, st)
  {
    AscFacts(st.versions);
    forall v | v in Asc(st.versions) ensures v in st.versions {
      assert v in Elems(Asc(st.versions));
    }
    ReplayLocal(run, a, b, Asc(st.versions), base);
  }

  /** What the section of the next migration makes of the schema: what the row will stand for. */
  lemma SectionThenRow<S(!new)>(run: Engine<S>, base: S, files: Catalog, all: Catalog, d: Direction, v: Version,
                                st: State<S>, schema: S)
    requires Covers(files, all) && (d.Down? ==> Lawful(run, files)) && Agrees(run, base, all, st)
    requires MayTake(d, files.Keys, st.versions, v)
    requires SectionOf(d, files[v]).Some? && run(SectionOf(d, files[v]).value, st.schema) == Some(schema)
    ensures Agrees(run, base, all, State(After(d, st.versions, v), schema))
    ensures IsAhead(run, base, files.Keys, all, d, State(st.versions, schema), v)
  {
    if d.Up? {
      RebuiltAbove(run, all, st.versions, base, v);
    } else {
      RebuiltTop(run, all, st.versions, base);
      assert DownUndoesUp(run, files[v]);
    }
  }

  /** One migration that its direction may take keeps the agreement, or stops one migration ahead. */
  lemma StepKeepsAgreement<S(!new)>(run: Engine<S>, base: S, files: Catalog, all: Catalog, d: Direction, v: Version,
                                    st: State<S>, fault: Fault)
    requires Covers(files, all) && (d.Down? ==> Lawful(run, files)) && Agrees(run, base, all, st)
    requires MayTake(d, files.Keys, st.versions, v)
    ensures var r := Migrate1(run, files[v], d, v, st, fault);
      && (r.ok || !fault.BeforeRow? ==> Agrees(run, base, all, r.state))
      && (Agrees(run, base, all, r.state) || OneAhead(run, base, files.Keys, all, d, r.state))
      && (r.ok ==> r.state.versions == After(d, st.versions, v))
  {
    var section := SectionOf(d, files[v]);
    if section.Some? && run(section.value, st.schema).Some? {
      var schema := run(section.value, st.schema).value;
      SectionThenRow(run, base, files, all, d, v, st, schema);
      assert OneAhead(run, base, files.Keys, all, d, State(st.versions, schema));
    }
  }

  /**
    The crash form of the agreement. After any number of migrations and any trouble, the schema is the replay
    of the record, or exactly one migration ahead of it; and only trouble between a section and its version
    row can leave the second.
   */
  lemma {:induction false} ExecuteKeepsAgreement<S(!new)>(run: Engine<S>, base: S, files: Catalog, all: Catalog,
                                                          d: Direction, plan: seq<Version>, st: State<S>,
                                                          fault: Fault)
    requires Covers(files, all) && (d.Down? ==> Lawful(run, files)) && Agrees(run, base, all, st)
    requires Ready(d, files.Keys, st.versions, plan)
    requires forall v | v in plan :: v in files
    ensures var r := Execute(run, files, d, plan, st, fault);
      && (r.ok || !fault.BeforeRow? ==> Agrees(run, base, all, r.state))
      && (Agrees(run, base, all, r.state) || OneAhead(run, base, files.Keys, all, d, r.state))
    decreases |plan|
  {
    if plan != [] {
      StepKeepsAgreement(run, base, files, all, d, plan[0], st, fault);
      var r := Migrate1(run, files[plan[0]], d, plan[0], st, fault);
      if r.ok {
        ExecuteKeepsAgreement(run, base, files, all, d, plan[1..], r.state, fault.Next());
      }
    }
  }

  lemma UpOrDownKeepsAgreement<S(!new)>(run: Engine<S>, base: S, files: Catalog, all: Catalog, d: Direction,
                                        args: seq<string>, st: State<S>, fault: Fault)
    requires Covers(files, all) && (d.Down? ==> Lawful(run, files)) && Agrees(run, base, all, st)
    ensures var r := UpOrDown(run, files, d, args, st, fault);
      && (r.ok || !fault.BeforeRow? ==> Agrees(run, base, all, r.state))
      && (Agrees(run, base, all, r.state) || OneAhead(run, base, files.Keys, all, d, r.state))
  {
    var l := ParseArguments(d, args);
    if l.Some? {
      PlanIsAvailable(d, files.Keys, st.versions, l.value);
      PlanReady(d, files.Keys, st.versions, l.value);
      ExecuteKeepsAgreement(run, base, files, all, d, Plan(d, files.Keys, st.versions, l.value), st, fault);
    }
  }

  /** The same for every command of the tool. */
  lemma PerformKeepsAgreement<S(!new)>(run: Engine<S>, kind: DbType, base: S, files: Catalog, all: Catalog, c: Command,
                                       st: State<S>, fault: Fault, second: Fault)
    requires Covers(files, all) && Lawful(run, files) && Agrees(run, base, all, st)
    ensures var r := Perform(run, kind, files, c, st, fault, second);
      && (r.ok || (!fault.BeforeRow? && !second.BeforeRow?) ==> Agrees(run, base, all, r.state))
      && (Agrees(run, base, all, r.state) || exists d :: OneAhead(run, base, files.Keys, all, d, r.state))
  {
    match c
    case UpCommand(args) => UpOrDownKeepsAgreement(run, base, files, all, Up, args, st, fault);
    case DownCommand(args) => UpOrDownKeepsAgreement(run, base, files, all, Down, args, st, fault);
    case RollbackCommand(args) =>
      var a := RollbackArguments(args);
      if a.Some? {
        UpOrDownKeepsAgreement(run, base, files, all, Down, a.value, st, fault);
      }
    case RedoCommand(args) =>
      if st.versions != {} {
        UpOrDownKeepsAgreement(run, base, files, all, Down, args, st, fault);
        var r := UpOrDown(run, files, Down, args, st, fault);
        if r.ok {
          UpOrDownKeepsAgreement(run, base, files, all, Up, [VersionText(kind, Max(st.versions))], r.state, second);
        }
      }
  }
}
