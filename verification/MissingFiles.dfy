/** `down` when migration files have disappeared: how far it gets, and what it reports. */
module MissingFiles {
  import opened Options
  import opened Orders
  import opened Arguments
  import opened Plans
  import opened Discipline
  import opened Replay
  import opened Commands

  /** A plain `down` that goes through leaves the recorded versions up to the highest one without a file. */
  ghost function Stuck(avail: set<Version>, recorded: set<Version>): set<Version> {
    var gap := recorded - avail;
    if gap == {} then {} else set v | v in recorded && v <= Max(gap)
  }

  lemma NoGap(avail: set<Version>, recorded: set<Version>)
    ensures recorded - avail == {} <==> recorded <= avail
  {
    if recorded - avail == {} {
      forall v | v in recorded ensures v in avail {
        assert v !in recorded - avail;
      }
    }
  }

  lemma RevertibleAboveGap(avail: set<Version>, recorded: set<Version>)
    ensures recorded - Revertible(avail, recorded, None) == Stuck(avail, recorded)
  {
    var gap := recorded - avail;
    forall v | v in recorded ensures v in Revertible(avail, recorded, None) <==> gap == {} || v > Max(gap) {
      if gap == {} || v > Max(gap) {
        forall u | u in recorded && u >= v ensures u in avail {
          assert u !in gap;
        }
      } else {
        assert Max(gap) in recorded;
      }
    }
  }

  /**
    What a plain `down` that goes through has done: it has reverted exactly the recorded versions above the highest
    one without a file, and so everything if and only if every recorded version has its file.
   */
  lemma PlainDown<S>(run: Engine<S>, files: Catalog, st: State<S>, fault: Fault)
    requires UpOrDown(run, files, Down, [], st, fault).ok
    ensures var left := UpOrDown(run, files, Down, [], st, fault).state.versions;
      left == Stuck(files.Keys, st.versions) && (left == {} <==> st.versions <= files.Keys)
  {
    var l := Limits(None, None);
    assert ParseArguments(Down, []) == Some(l);
    PlanIsAvailable(Down, files.Keys, st.versions, l);
    ExecuteOk(run, files, Down, DownPlan(files.Keys, st.versions, l), st, fault);
    DescElems(Revertible(files.Keys, st.versions, None));
    RevertibleAboveGap(files.Keys, st.versions);
    var gap := st.versions - files.Keys;
    NoGap(files.Keys, st.versions);
    if gap != {} {
      assert Max(gap) in Stuck(files.Keys, st.versions);
    }
  }

  lemma {:induction false} DownGoesThrough<S(!new)>(run: Engine<S>, base: S, files: Catalog, all: Catalog,
                                                    plan: seq<Version>, st: State<S>)
    requires Covers(files, all) && Reliable(run, files) && Agrees(run, base, all, st)
    requires forall v | v in plan :: v in files
    requires Ready(Down, files.Keys, st.versions, plan)
    ensures Execute(run, files, Down, plan, st, NoFault).ok
    decreases |plan|
  {
    if plan != [] {
      ReliableIsLawful(run, files);
      RebuiltTop(run, all, st.versions, base);
      assert DownAlwaysUndoesUp(run, files[plan[0]]);
      StepKeepsAgreement(run, base, files, all, Down, plan[0], st, NoFault);
      DownGoesThrough(run, base, files, all, plan[1..], Migrate1(run, files[plan[0]], Down, plan[0], st,
                      NoFault).state);
    }
  }

  /**
    A recorded version without a file should be an error. It never is: where the schema agrees with the record, DOWN is
    reliable and nothing interferes, `down` reports success for all arguments it can read, whatever files are gone.
   */
  lemma MissingFileIsNoError<S(!new)>(run: Engine<S>, base: S, files: Catalog, all: Catalog, args: seq<string>,
                                      st: State<S>)
    requires Covers(files, all) && Reliable(run, files) && Agrees(run, base, all, st)
    ensures UpOrDown(run, files, Down, args, st, NoFault).ok <==> ParseArguments(Down, args).Some?
  {
    var l := ParseArguments(Down, args);
    if l.Some? {
      PlanIsAvailable(Down, files.Keys, st.versions, l.value);
      DownPlanReady(files.Keys, st.versions, l.value);
      DownGoesThrough(run, base, files, all, DownPlan(files.Keys, st.versions, l.value), st);
    }
  }

  /**
    Both together: a plain `down` then always reports success, keeps the versions up to the highest one without
    a file, and has emptied the database if and only if no file is missing.
   */
  lemma MissingFileStopsDown<S(!new)>(run: Engine<S>, base: S, files: Catalog, all: Catalog, st: State<S>)
    requires Covers(files, all) && Reliable(run, files) && Agrees(run, base, all, st)
    ensures var r := UpOrDown(run, files, Down, [], st, NoFault);
      && r.ok && r.state.versions == Stuck(files.Keys, st.versions)
      && (r.state == State({}, base) <==> st.versions <= files.Keys)
  {
    assert ParseArguments(Down, []) == Some(Limits(None, None));
    MissingFileIsNoError(run, base, files, all, [], st);
    PlainDown(run, files, st, NoFault);
    ReliableIsLawful(run, files);
    UpOrDownKeepsAgreement(run, base, files, all, Down, [], st, NoFault);
    assert Asc({}) == [];
  }

  /** When the newest recorded version itself has no file, `down` reports success and does nothing. */
  lemma MissingNewestIsNotReported<S>(run: Engine<S>, files: Catalog, args: seq<string>, st: State<S>, fault: Fault)
    requires st.versions != {} && Max(st.versions) !in files
    ensures UpOrDown(run, files, Down, args, st, fault) == Result(st, ParseArguments(Down, args).Some?)
  {
    var l := ParseArguments(Down, args);
    if l.Some? {
      assert Revertible(files.Keys, st.versions, l.value.till) == {};
      assert DownPlan(files.Keys, st.versions, l.value) == [];
    }
  }

  /** A concrete loss: one recorded version, its file gone; a plain `down` reports success and reverts nothing. */
  lemma LostFile<S>(run: Engine<S>, schema: S)
    ensures UpOrDown(run, map[], Down, [], State({1_507_560_488}, schema), NoFault)
         == Result(State({1_507_560_488}, schema), true)
  {
    var st := State({1_507_560_488}, schema);
    assert ParseArguments(Down, []) == Some(Limits(None, None));
    MissingNewestIsNotReported(run, map[], [], st, NoFault);
  }
}
