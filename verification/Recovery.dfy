/**
  After a command was cut off between a section and its version row: what the next command does. The record still
  names the migration that was cut off, so its section runs a second time.
 */
module Recovery {
  import opened Options
  import opened Orders
  import opened Text
  import opened Sections
  import opened Arguments
  import opened Plans
  import opened Discipline
  import opened Replay
  import opened Commands
  import opened Histories

  /** The section that was cut off, run again on the schema it has left. */
  function Again<S>(run: Engine<S>, files: Catalog, d: Direction, v: Version, schema: S): Option<S> {
    if d.Up? then ApplyUp(run, files, v, schema) else ApplyDown(run, files, v, schema)
  }

  /** The command that takes one migration in a direction. */
  function OneStep(d: Direction): Command {
    if d.Up? then UpCommand(["steps=1"]) else RollbackCommand([])
  }

  /** Whatever its limits, a plan that is not empty starts with the version its direction may take. */
  lemma PlanStartsWith(d: Direction, avail: set<Version>, recorded: set<Version>, l: Limits, v: Version)
    requires MayTake(d, avail, recorded, v) && Plan(d, avail, recorded, l) != []
    ensures Plan(d, avail, recorded, l)[0] == v
  {
    PlanReady(d, avail, recorded, l);
  }

  /** Without a stop version there is always a next migration to take, if one may be taken. */
  lemma PlanIsNotEmpty(d: Direction, avail: set<Version>, recorded: set<Version>, steps: Option<nat>, v: Version)
    requires MayTake(d, avail, recorded, v) && (steps.Some? ==> steps.value > 0)
    ensures Plan(d, avail, recorded, Limits(steps, None)) != []
  {
    if d.Up? {
      var s := set u | u in avail && u > Newest(recorded) && NotBeyond(None, u);
      assert v in s;
      AscFacts(s);
    } else {
      var s := Revertible(avail, recorded, None);
      assert v in s;
      DescFacts(s);
    }
  }

  lemma OneStepPlan(d: Direction, avail: set<Version>, recorded: set<Version>, v: Version)
    requires MayTake(d, avail, recorded, v)
    ensures Plan(d, avail, recorded, Limits(Some(1), None)) == [v]
  {
    var plan := Plan(d, avail, recorded, Limits(Some(1), None));
    PlanIsNotEmpty(d, avail, recorded, Some(1), v);
    PlanStartsWith(d, avail, recorded, Limits(Some(1), None), v);
    assert |plan| == 1;
  }

  lemma OneStepRuns<S>(run: Engine<S>, kind: DbType, files: Catalog, d: Direction, st: State<S>, v: Version)
    requires MayTake(d, files.Keys, st.versions, v)
    ensures Perform(run, kind, files, OneStep(d), st, NoFault, NoFault) == Migrate1(run, files[v], d, v, st, NoFault)
  {
    RollbackCount("1");
    assert Value("1") == 1;
    assert STEPS + "1" == "steps=1";
    var l := Limits(Some(1), None);
    assert ParseArguments(d, ["steps=1"]) == Some(l);
    OneStepPlan(d, files.Keys, st.versions, v);
    PlanIsAvailable(d, files.Keys, st.versions, l);
    assert [v][1..] == [];
    var r := Migrate1(run, files[v], d, v, st, NoFault);
    assert Execute(run, files, d, [v], st, NoFault) ==
           if !r.ok then r else Execute(run, files, d, [], r.state, NoFault);
    assert UpOrDown(run, files, d, ["steps=1"], st, NoFault) == r;
  }

  /**
    A migration that was cut off is taken first by the next command of its direction, whatever its limits, and its
    section runs a second time. One step further the agreement is back exactly when that second run leaves the
    schema as it is; the step fails, and changes nothing, when the second run does.
   */
  lemma StepAfterCut<S(!new)>(run: Engine<S>, kind: DbType, base: S, files: Catalog, all: Catalog, d: Direction,
                              st: State<S>, v: Version)
    requires Covers(files, all) && IsAhead(run, base, files.Keys, all, d, st, v)
    ensures forall l :: Plan(d, files.Keys, st.versions, l) != [] ==> Plan(d, files.Keys, st.versions, l)[0] == v
    ensures var r := Perform(run, kind, files, OneStep(d), st, NoFault, NoFault);
      var again := Again(run, files, d, v, st.schema);
      && (r.ok <==> again.Some?)
      && (!r.ok ==> r.state == st)
      && (r.ok ==> r.state == State(After(d, st.versions, v), again.value))
      && (r.ok ==> (Agrees(run, base, all, r.state) <==> again == Some(st.schema)))
  {
    forall l | Plan(d, files.Keys, st.versions, l) != [] ensures Plan(d, files.Keys, st.versions, l)[0] == v {
      PlanStartsWith(d, files.Keys, st.versions, l, v);
    }
    OneStepRuns(run, kind, files, d, st, v);
    if d.Up? {
      RebuiltAbove(run, all, st.versions, base, v);
    }
  }

  /** Where the second run changes nothing, a plain `up` mends a cut-off `up` and goes on as if nothing had happened. */
  lemma PlainUpAfterCut<S(!new)>(run: Engine<S>, base: S, files: Catalog, all: Catalog, st: State<S>, v: Version)
    requires Covers(files, all) && IsAhead(run, base, files.Keys, all, Up, st, v)
    requires Again(run, files, Up, v, st.schema) == Some(st.schema)
    ensures var mended := State(st.versions + {v}, st.schema);
      && Agrees(run, base, all, mended)
      && UpOrDown(run, files, Up, [], st, NoFault) == UpOrDown(run, files, Up, [], mended, NoFault)
      && Agrees(run, base, all, UpOrDown(run, files, Up, [], st, NoFault).state)
  {
    var mended := State(st.versions + {v}, st.schema);
    assert ParseArguments(Up, []) == Some(Limits(None, None));
    RebuiltAbove(run, all, st.versions, base, v);
    FirstOfPlainUp(run, files, st, v);
    UpOrDownKeepsAgreement(run, base, files, all, Up, [], mended, NoFault);
  }

  lemma FirstOfPlainUp<S>(run: Engine<S>, files: Catalog, st: State<S>, v: Version)
    requires IsNextPending(files.Keys, st.versions, v)
    ensures var l, first := Limits(None, None), Migrate1(run, files[v], Up, v, st, NoFault);
      first.ok && first.state.versions == st.versions + {v} ==>
        Migrate(run, files, Up, l, st, NoFault) == Migrate(run, files, Up, l, first.state, NoFault)
  {
    var l := Limits(None, None);
    PlanAfterFirst(files.Keys, st.versions, v);
    PlanIsAvailable(Up, files.Keys, st.versions, l);
    PlanIsAvailable(Up, files.Keys, st.versions + {v}, l);
    var rest := UpPlan(files.Keys, st.versions + {v}, l);
    assert ([v] + rest)[1..] == rest;
  }

  lemma PlanAfterFirst(avail: set<Version>, recorded: set<Version>, v: Version)
    requires IsNextPending(avail, recorded, v)
    ensures var l := Limits(None, None);
      UpPlan(avail, recorded, l) == [v] + UpPlan(avail, recorded + {v}, l)
  {
    UpPlanElems(avail, recorded, None);
    UpPlanElems(avail, recorded + {v}, None);
    var s := set u | u in avail && u > Newest(recorded) && NotBeyond(None, u);
    var t := set u | u in avail && u > v && NotBeyond(None, u);
    assert Newest(recorded + {v}) == v;
    assert s == {v} + t;
    LeastFirst(v, t);
  }

  lemma LeastFirst(v: Version, t: set<Version>)
    requires forall u | u in t :: v < u
    ensures Asc({v} + t) == [v] + Asc(t)
  {
    AscFacts(t);
    forall i | 0 <= i < |Asc(t)| ensures v < Asc(t)[i] {
      assert Asc(t)[i] in Elems(Asc(t));
    }
    ElemsConcat([v], Asc(t));
    assert Elems([v]) == {v};
    AscUnique([v] + Asc(t), {v} + t);
  }

  /**
    The law that DOWN undoes UP leaves little room for such a second run: where DOWN runs on the schema that a cut-off
    UP has changed, the second run of UP is refused, or changes the schema once more, and the agreement stays lost.
   */
  lemma CutUpStaysAhead<S(!new)>(run: Engine<S>, kind: DbType, base: S, files: Catalog, all: Catalog, st: State<S>,
                                 v: Version)
    requires Covers(files, all) && IsAhead(run, base, files.Keys, all, Up, st, v) && DownUndoesUp(run, files[v])
    requires !Agrees(run, base, all, st) && ApplyDown(run, files, v, st.schema).Some?
    ensures Again(run, files, Up, v, st.schema) != Some(st.schema)
    ensures var r := Perform(run, kind, files, OneStep(Up), st, NoFault, NoFault);
      r.ok ==> !Agrees(run, base, all, r.state)
  {
    StepAfterCut(run, kind, base, files, all, Up, st, v);
    var before := Rebuilt(run, all, st.versions, base).value;
    var up, down := files[v].up.value, files[v].down.value;
    assert run(up, before) == Some(st.schema) && run(down, st.schema) == Some(before);
    assert before != st.schema;
  }

  /**
    A whole history cut off anywhere in its last command, and then one step more: either the schema already was the
    replay of the record, or one migration was cut off, and the step of its direction, if it goes through, brings the
    agreement back if and only if running that section twice is the same as running it once; which it never is for an
    UP whose DOWN runs on the schema left behind.
   */
  lemma HistoryThenStep<S(!new)>(run: Engine<S>, kind: DbType, base: S, w: World<S>, actions: seq<Action>, last: Action)
    requires Sound(run, base, w) && Legal(run, kind, w, actions) && Atomic(actions) && last.Run?
    ensures var after := Act(run, kind, History(run, kind, w, actions), last);
      || Agrees(run, base, after.archive, after.st)
      || exists d, v :: IsAhead(run, base, after.files.Keys, after.archive, d, after.st, v) &&
           var r := Perform(run, kind, after.files, OneStep(d), after.st, NoFault, NoFault);
           && (r.ok ==> (Agrees(run, base, after.archive, r.state) <==>
                         Again(run, after.files, d, v, after.st.schema) == Some(after.st.schema)))
           && (r.ok && d.Up? && ApplyDown(run, after.files, v, after.st.schema).Some? ==>
                 !Agrees(run, base, after.archive, r.state))
  {
    HistoryKeepsAgreement(run, kind, base, w, actions);
    HistoryCutShort(run, kind, base, w, actions, last);
    var after := Act(run, kind, History(run, kind, w, actions), last);
    if !Agrees(run, base, after.archive, after.st) {
      var d :| OneAhead(run, base, after.files.Keys, after.archive, d, after.st);
      var v :| IsAhead(run, base, after.files.Keys, after.archive, d, after.st, v);
      StepAfterCut(run, kind, base, after.files, after.archive, d, after.st, v);
      if d.Up? && ApplyDown(run, after.files, v, after.st.schema).Some? {
        CutUpStaysAhead(run, kind, base, after.files, after.archive, after.st, v);
      }
    }
  }

  // ---------- Any number of cuts ----------

  /** The assumption that mends cuts: a section run a second time leaves the schema it has made alone. */
  ghost predicate Repeatable<S(!new)>(run: Engine<S>, d: Direction, f: File) {
    var section := SectionOf(d, f);
    section.Some? ==> forall s: S :: var t := run(section.value, s); t.Some? ==> run(section.value, t.value) == t
  }

  ghost predicate AllRepeatable<S(!new)>(run: Engine<S>, d: Direction, files: Catalog) {
    && (forall v | v in files :: Repeatable(run, d, files[v]))
    && (d.Down? ==> Lawful(run, files))
  }

  /** The schema is the replay of the record, or one command of the direction has been cut off. */
  ghost predicate Mendable<S(!new)>(run: Engine<S>, base: S, files: Catalog, all: Catalog, d: Direction, st: State<S>) {
    Agrees(run, base, all, st) || OneAhead(run, base, files.Keys, all, d, st)
  }

  lemma RepeatedOnce<S(!new)>(run: Engine<S>, d: Direction, f: File, before: S, after: S)
    requires Repeatable(run, d, f) && SectionOf(d, f).Some? && run(SectionOf(d, f).value, before) == Some(after)
    ensures run(SectionOf(d, f).value, after) == Some(after)
  {
  }

  /** The cut-off migration, taken up again: done at last, or still cut off. */
  lemma FirstStepMends<S(!new)>(run: Engine<S>, base: S, files: Catalog, all: Catalog, d: Direction, st: State<S>,
                                v: Version, fault: Fault)
    requires Covers(files, all) && IsAhead(run, base, files.Keys, all, d, st, v) && Repeatable(run, d, files[v])
    ensures var r := Migrate1(run, files[v], d, v, st, fault);
      if r.ok then Agrees(run, base, all, r.state) && r.state.versions == After(d, st.versions, v) else r.state == st
  {
    var before := Rebuilt(run, all, st.versions, base).value;
    assert SectionOf(d, files[v]).Some? && run(SectionOf(d, files[v]).value, before) == Some(st.schema);
    RepeatedOnce(run, d, files[v], before, st.schema);
    MendedAgrees(run, base, files, all, d, st, v);
  }

  /** Only the row is missing. */
  lemma MendedAgrees<S(!new)>(run: Engine<S>, base: S, files: Catalog, all: Catalog, d: Direction, st: State<S>,
                              v: Version)
    requires Covers(files, all) && IsAhead(run, base, files.Keys, all, d, st, v)
    ensures Agrees(run, base, all, State(After(d, st.versions, v), st.schema))
  {
    if d.Up? {
      RebuiltAbove(run, all, st.versions, base, v);
    }
  }

  lemma CommandKeepsMendable<S(!new)>(run: Engine<S>, base: S, files: Catalog, all: Catalog, d: Direction,
                                      args: seq<string>, st: State<S>, fault: Fault)
    requires Covers(files, all) && AllRepeatable(run, d, files) && Mendable(run, base, files, all, d, st)
    ensures var r := UpOrDown(run, files, d, args, st, fault);
      Mendable(run, base, files, all, d, r.state) && (r.ok && args == [] ==> Agrees(run, base, all, r.state))
  {
    if Agrees(run, base, all, st) {
      UpOrDownKeepsAgreement(run, base, files, all, d, args, st, fault);
    } else {
      var v :| IsAhead(run, base, files.Keys, all, d, st, v);
      var l := ParseArguments(d, args);
      if l.Some? {
        CommandFromCut(run, base, files, all, d, l.value, st, v, fault);
        assert args == [] ==> l.value == Limits(None, None);
        PlanIsNotEmpty(d, files.Keys, st.versions, None, v);
      }
    }
  }

  lemma CommandFromCut<S(!new)>(run: Engine<S>, base: S, files: Catalog, all: Catalog, d: Direction, l: Limits,
                                st: State<S>, v: Version, fault: Fault)
    requires Covers(files, all) && AllRepeatable(run, d, files) && IsAhead(run, base, files.Keys, all, d, st, v)
    ensures var r := Migrate(run, files, d, l, st, fault);
      && Mendable(run, base, files, all, d, r.state)
      && (r.ok && Plan(d, files.Keys, st.versions, l) != [] ==> Agrees(run, base, all, r.state))
  {
    var plan := Plan(d, files.Keys, st.versions, l);
    PlanIsAvailable(d, files.Keys, st.versions, l);
    PlanReady(d, files.Keys, st.versions, l);
    if plan == [] {
      assert OneAhead(run, base, files.Keys, all, d, st);
    } else {
      PlanStartsWith(d, files.Keys, st.versions, l, v);
      FirstStepMends(run, base, files, all, d, st, v, fault);
      var r := Migrate1(run, files[v], d, v, st, fault);
      if r.ok {
        ExecuteKeepsAgreement(run, base, files, all, d, plan[1..], r.state, fault.Next());
      } else {
        assert OneAhead(run, base, files.Keys, all, d, st);
      }
    }
  }

  /** One command with its arguments and its trouble. */
  datatype Attempt = Attempt(args: seq<string>, fault: Fault)

  ghost function AfterAttempts<S>(run: Engine<S>, files: Catalog, d: Direction, st: State<S>,
                                  attempts: seq<Attempt>): State<S>
    decreases |attempts|
  {
    if attempts == [] then st
    else
      var a := attempts[0];
      AfterAttempts(run, files, d, UpOrDown(run, files, d, a.args, st, a.fault).state, attempts[1..])
  }

  lemma {:induction false} AttemptsKeepMendable<S(!new)>(run: Engine<S>, base: S, files: Catalog, all: Catalog,
                                                         d: Direction, st: State<S>, attempts: seq<Attempt>)
    requires Covers(files, all) && AllRepeatable(run, d, files) && Mendable(run, base, files, all, d, st)
    ensures Mendable(run, base, files, all, d, AfterAttempts(run, files, d, st, attempts))
    decreases |attempts|
  {
    if attempts != [] {
      var a := attempts[0];
      CommandKeepsMendable(run, base, files, all, d, a.args, st, a.fault);
      AttemptsKeepMendable(run, base, files, all, d, UpOrDown(run, files, d, a.args, st, a.fault).state, attempts[1..]);
    }
  }

  /**
    Where every section of a direction may be run again on what it has made, cuts do not add up: after any number of
    commands of that direction, each with any arguments and cut off anywhere, a plain one that goes through ends in
    agreement. For `up` the law that DOWN undoes UP is not needed.
   */
  lemma PlainCommandMendsAll<S(!new)>(run: Engine<S>, base: S, files: Catalog, all: Catalog, d: Direction, st: State<S>,
                                      attempts: seq<Attempt>, fault: Fault)
    requires Covers(files, all) && AllRepeatable(run, d, files) && Agrees(run, base, all, st)
    ensures var r := UpOrDown(run, files, d, [], AfterAttempts(run, files, d, st, attempts), fault);
      r.ok ==> Agrees(run, base, all, r.state)
  {
    AttemptsKeepMendable(run, base, files, all, d, st, attempts);
    CommandKeepsMendable(run, base, files, all, d, [], AfterAttempts(run, files, d, st, attempts), fault);
  }

  // ---------- Sections that may run again ----------

  const CREATE: Script := ["create table"]
  const CREATE_IF_ABSENT: Script := ["create table if not exists"]
  const DROP: Script := ["drop table"]
  const DROP_IF_PRESENT: Script := ["drop table if exists"]

  /** A database that has its one table or not. */
  function OneTable(script: Script, present: bool): Option<bool> {
    if script == CREATE then if present then None else Some(true)
    else if script == CREATE_IF_ABSENT then Some(true)
    else if script == DROP then if present then Some(false) else None
    else if script == DROP_IF_PRESENT then Some(false)
    else None
  }

  lemma FourScripts()
    ensures |{CREATE, CREATE_IF_ABSENT, DROP, DROP_IF_PRESENT}| == 4
  {
    assert |CREATE[0]| == 12 && |CREATE_IF_ABSENT[0]| == 26 && |DROP[0]| == 10 && |DROP_IF_PRESENT[0]| == 20;
  }

  lemma OneFileReplay(f: File, v: Version, st: State<bool>)
    requires st.versions <= {v}
    ensures Agrees(OneTable, false, map[v := f], st) <==>
            (if st.versions == {} then Some(false) else ApplyUp(OneTable, map[v := f], v, false)) == Some(st.schema)
  {
    if st.versions != {} {
      assert st.versions == {} + {v};
      RebuiltAbove(OneTable, map[v := f], {}, false, v);
    }
    assert Rebuilt(OneTable, map[v := f], {}, false) == Some(false);
  }

  /** A migration that creates and may run again: an `up` that was cut off is mended, and the table is there. */
  lemma CutUpMended(v: Version)
    ensures var files: Catalog := map[v := File(Some(CREATE_IF_ABSENT), Some(DROP))];
      var cut := UpOrDown(OneTable, files, Up, [], State({}, false), BeforeRow(0));
      && AllRepeatable(OneTable, Up, files) && !Lawful(OneTable, files)
      && cut == Result(State({}, true), false) && !Agrees(OneTable, false, files, cut.state)
      && UpOrDown(OneTable, files, Up, [], cut.state, NoFault) == Result(State({v}, true), true)
  {
    var f := File(Some(CREATE_IF_ABSENT), Some(DROP));
    FourScripts();
    OneFileRuns(OneTable, f, v, Up, State({}, false), BeforeRow(0));
    OneFileReplay(f, v, State({}, true));
    OneFileRuns(OneTable, f, v, Up, State({}, true), NoFault);
    assert OneTable(CREATE_IF_ABSENT, true) == Some(true) && OneTable(DROP, true) == Some(false);
    assert !DownUndoesUp(OneTable, f);
  }

  /** The same for `down`, where the law that DOWN undoes UP holds as well. */
  lemma CutDownMended(v: Version)
    ensures var files: Catalog := map[v := File(Some(CREATE), Some(DROP_IF_PRESENT))];
      var cut := UpOrDown(OneTable, files, Down, [], State({v}, true), BeforeRow(0));
      && AllRepeatable(OneTable, Down, files) && Agrees(OneTable, false, files, State({v}, true))
      && cut == Result(State({v}, false), false) && !Agrees(OneTable, false, files, cut.state)
      && UpOrDown(OneTable, files, Down, [], cut.state, NoFault) == Result(State({}, false), true)
  {
    var f := File(Some(CREATE), Some(DROP_IF_PRESENT));
    FourScripts();
    OneFileRuns(OneTable, f, v, Down, State({v}, true), BeforeRow(0));
    OneFileReplay(f, v, State({v}, true));
    OneFileReplay(f, v, State({v}, false));
    OneFileRuns(OneTable, f, v, Down, State({v}, false), NoFault);
    assert {v} - {v} == {};
  }

  /** A section that may not run again: no `up` ever goes through after the cut. */
  lemma CutUpStuck(v: Version, fault: Fault)
    ensures var files: Catalog := map[v := File(Some(CREATE), Some(DROP))];
      var cut := UpOrDown(OneTable, files, Up, [], State({}, false), BeforeRow(0)).state;
      && Lawful(OneTable, files) && !Agrees(OneTable, false, files, cut)
      && UpOrDown(OneTable, files, Up, [], cut, fault) == Result(cut, false)
  {
    var f := File(Some(CREATE), Some(DROP));
    FourScripts();
    OneFileRuns(OneTable, f, v, Up, State({}, false), BeforeRow(0));
    OneFileReplay(f, v, State({}, true));
    OneFileRuns(OneTable, f, v, Up, State({}, true), fault);
  }
}
