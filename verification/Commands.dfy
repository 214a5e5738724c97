/** What single commands and pairs of commands promise: rollback after up, redo, and a full up. */
module Commands {
  import opened Options
  import opened Orders
  import opened Text
  import opened Arguments
  import opened Plans
  import opened Discipline
  import opened Replay

  // ---------- Descending listings ----------

  lemma {:induction false} DescSplit(low: set<Version>, high: set<Version>)
    requires forall x, y | x in low && y in high :: x < y
    ensures Desc(low + high) == Desc(high) + Desc(low)
  {
    if high == {} {
      assert low + high == low;
    } else {
      var m := Max(high);
      assert Max(low + high) == m;
      assert (low + high) - {m} == low + (high - {m});
      DescSplit(low, high - {m});
    }
  }

  // ---------- up, then rollback ----------

  /** What is left of a fault after the migrations of a plan. */
  function FaultAfter<T>(fault: Fault, a: seq<T>): Fault
    decreases |a|
  {
    if a == [] then fault else FaultAfter(fault.Next(), a[1..])
  }

  lemma {:induction false} NothingAfterNothing<T>(a: seq<T>)
    ensures FaultAfter(NoFault, a) == NoFault
  {
    if a != [] {
      NothingAfterNothing(a[1..]);
    }
  }

  lemma {:induction false} ExecuteSnoc<S>(run: Engine<S>, files: Catalog, d: Direction, a: seq<Version>, v: Version,
                                          st: State<S>, fault: Fault)
    requires v in files && forall u | u in a :: u in files
    ensures forall u | u in a + [v] :: u in files
    ensures var r := Execute(run, files, d, a, st, fault);
      Execute(run, files, d, a + [v], st, fault) ==
      if r.ok then Migrate1(run, files[v], d, v, r.state, FaultAfter(fault, a)) else r
    decreases |a|
  {
    var all := a + [v];
    if a == [] {
      assert all[1..] == [];
    } else {
      assert all[1..] == a[1..] + [v];
      var r := Migrate1(run, files[a[0]], d, a[0], st, fault);
      if r.ok {
        ExecuteSnoc(run, files, d, a[1..], v, r.state, fault.Next());
      }
    }
  }

  ghost function Mid<S>(run: Engine<S>, files: Catalog, plan: seq<Version>, st: State<S>, fault: Fault): State<S>
    requires forall v | v in plan :: v in files
  {
    Execute(run, files, Up, plan, st, fault).state
  }

  ghost predicate OnTop(low: set<Version>, all: set<Version>, avail: set<Version>) {
    low <= all && all - low <= avail && forall x, y | x in low && y in all - low :: x < y
  }

  lemma OneMoreOnTop(low: set<Version>, v: Version, all: set<Version>, avail: set<Version>)
    requires OnTop(low + {v}, all, avail) && v in avail && forall x | x in low :: x < v
    ensures OnTop(low, all, avail)
  {
    forall y | y in all - low ensures y in avail && forall x | x in low :: x < y {
      assert y == v || y in all - (low + {v});
    }
  }

  /** A plan of `up` only puts versions on top. */
  lemma {:induction false} UpAddsOnTop<S>(run: Engine<S>, files: Catalog, plan: seq<Version>, st: State<S>,
                                          fault: Fault)
    requires forall v | v in plan :: v in files
    requires Ready(Up, files.Keys, st.versions, plan)
    ensures OnTop(st.versions, Mid(run, files, plan, st, fault).versions, files.Keys)
    ensures forall v | v in Desc(Mid(run, files, plan, st, fault).versions - st.versions) :: v in files
    decreases |plan|
  {
    var mid := Mid(run, files, plan, st, fault);
    if plan == [] || !Migrate1(run, files[plan[0]], Up, plan[0], st, fault).ok {
      assert mid.versions == st.versions;
    } else {
      var next := Migrate1(run, files[plan[0]], Up, plan[0], st, fault).state;
      UpAddsOnTop(run, files, plan[1..], next, fault.Next());
      OneMoreOnTop(st.versions, plan[0], mid.versions, files.Keys);
    }
    DescElems(mid.versions - st.versions);
    forall v | v in Desc(mid.versions - st.versions) ensures v in files {
      assert v in Elems(Desc(mid.versions - st.versions));
    }
  }

  /** A stronger assumption: DOWN runs wherever UP has run, and undoes it. */
  ghost predicate DownAlwaysUndoesUp<S(!new)>(run: Engine<S>, f: File) {
    f.up.Some? ==> (
      && f.down.Some?
      && forall s: S :: var t := run(f.up.value, s); t.Some? ==> run(f.down.value, t.value) == Some(s))
  }

  /** Under the stronger assumption nothing but trouble from outside keeps a migration from being reverted. */
  ghost predicate Reliable<S(!new)>(run: Engine<S>, files: Catalog) {
    forall v | v in files :: DownAlwaysUndoesUp(run, files[v])
  }

  lemma ReliableIsLawful<S(!new)>(run: Engine<S>, files: Catalog)
    requires Reliable(run, files)
    ensures Lawful(run, files)
  {
    forall v | v in files ensures DownUndoesUp(run, files[v]) {
      assert DownAlwaysUndoesUp(run, files[v]);
    }
  }

  /**
    Reverting, newest first, what a plan of `up` has put in comes back to where it started if it goes through,
    and it does go through when DOWN is reliable and nothing interferes.
   */
  lemma {:induction false} RevertingUndoes<S(!new)>(run: Engine<S>, files: Catalog, plan: seq<Version>, st: State<S>,
                                                    fault: Fault, later: Fault)
    requires Lawful(run, files)
    requires forall v | v in plan :: v in files
    requires Ready(Up, files.Keys, st.versions, plan)
    requires Execute(run, files, Up, plan, st, fault).ok || !fault.BeforeRow?
    requires forall v | v in Desc(Mid(run, files, plan, st, fault).versions - st.versions) :: v in files
    ensures var mid := Mid(run, files, plan, st, fault);
      var back := Execute(run, files, Down, Desc(mid.versions - st.versions), mid, later);
      (back.ok ==> back.state == st) && (Reliable(run, files) && later.NoFault? ==> back.ok)
    decreases |plan|
  {
    var mid := Mid(run, files, plan, st, fault);
    UpAddsOnTop(run, files, plan, st, fault);
    if plan == [] || !Migrate1(run, files[plan[0]], Up, plan[0], st, fault).ok {
      assert mid == st && mid.versions - st.versions == {};
    } else {
      var v := plan[0];
      var next := Migrate1(run, files[v], Up, v, st, fault).state;
      UpAddsOnTop(run, files, plan[1..], next, fault.Next());
      RevertingUndoes(run, files, plan[1..], next, fault.Next(), later);
      var rest := mid.versions - next.versions;
      assert mid.versions - st.versions == {v} + rest;
      RevertLast(run, files, v, rest, st, next, mid, fault, later);
    }
  }

  lemma RevertLast<S(!new)>(run: Engine<S>, files: Catalog, v: Version, rest: set<Version>, st: State<S>,
                            next: State<S>, mid: State<S>, fault: Fault, later: Fault)
    requires v in files && DownUndoesUp(run, files[v]) && v !in st.versions
    requires Migrate1(run, files[v], Up, v, st, fault) == Result(next, true)
    requires forall y | y in rest :: v < y
    requires forall u | u in Desc(rest) :: u in files
    requires var back := Execute(run, files, Down, Desc(rest), mid, later);
      back.ok ==> back.state == next
    ensures forall u | u in Desc({v} + rest) :: u in files
    ensures var back := Execute(run, files, Down, Desc({v} + rest), mid, later);
      && (back.ok ==> back.state == st)
      && (Execute(run, files, Down, Desc(rest), mid, later).ok && DownAlwaysUndoesUp(run, files[v]) && later.NoFault?
          ==> back.ok)
  {
    DescSplit({v}, rest);
    assert Desc({v}) == [v] by { assert {v} - {v} == {}; }
    ExecuteSnoc(run, files, Down, Desc(rest), v, mid, later);
    NothingAfterNothing(Desc(rest));
    assert st.versions + {v} - {v} == st.versions;
  }

  /** The plan of `rollback n`, when the newest n recorded versions all have files. */
  lemma RollbackPlan(avail: set<Version>, recorded: set<Version>, low: set<Version>, high: set<Version>)
    requires recorded == low + high && high <= avail
    requires forall x, y | x in low && y in high :: x < y
    ensures DownPlan(avail, recorded, Limits(Some(|high|), None)) == Desc(high)
  {
    var all := Revertible(avail, recorded, None);
    UpperPartIsPrefix(all, recorded);
    UpperPartIsPrefix(high, all);
    DescFacts(high);
  }

  /**
    Round trip. From any record, gaps and missing files included: whatever number of migrations `up` applied,
    a `rollback` of that number that goes through restores the record and the schema exactly; and it does go
    through when DOWN is reliable and nothing interferes.
   */
  lemma UpThenRollback<S(!new)>(run: Engine<S>, kind: DbType, files: Catalog, args: seq<string>, st: State<S>,
                                fault: Fault, later: Fault, count: string)
    requires Lawful(run, files)
    requires Perform(run, kind, files, UpCommand(args), st, fault, NoFault).ok || !fault.BeforeRow?
    requires count != "" && AllDigits(count)
    requires var mid := Perform(run, kind, files, UpCommand(args), st, fault, NoFault).state;
      Value(count) == |mid.versions| - |st.versions|
    ensures var mid := Perform(run, kind, files, UpCommand(args), st, fault, NoFault).state;
      var back := Perform(run, kind, files, RollbackCommand([count]), mid, later, NoFault);
      (back.ok ==> back.state == st) && (Reliable(run, files) && later.NoFault? ==> back.ok)
  {
    var mid := Perform(run, kind, files, UpCommand(args), st, fault, NoFault).state;
    RevertingUndoesUp(run, files, args, st, fault, later);
    RollbackCount(count);
    RollbackOfAdded(run, files, st, mid, later, Value(count));
  }

  lemma RevertingUndoesUp<S(!new)>(run: Engine<S>, files: Catalog, args: seq<string>, st: State<S>, fault: Fault,
                                   later: Fault)
    requires Lawful(run, files)
    requires UpOrDown(run, files, Up, args, st, fault).ok || !fault.BeforeRow?
    ensures var mid := UpOrDown(run, files, Up, args, st, fault).state;
      var added := mid.versions - st.versions;
      && OnTop(st.versions, mid.versions, files.Keys)
      && (forall v | v in Desc(added) :: v in files)
      && var back := Execute(run, files, Down, Desc(added), mid, later);
         (back.ok ==> back.state == st) && (Reliable(run, files) && later.NoFault? ==> back.ok)
  {
    var l := ParseArguments(Up, args);
    if l.None? {
      UpAddsOnTop(run, files, [], st, fault);
      RevertingUndoes(run, files, [], st, fault, later);
    } else {
      var plan := UpPlan(files.Keys, st.versions, l.value);
      UpPlanReady(files.Keys, st.versions, l.value);
      PlanIsAvailable(Up, files.Keys, st.versions, l.value);
      UpAddsOnTop(run, files, plan, st, fault);
      RevertingUndoes(run, files, plan, st, fault, later);
    }
  }

  lemma RollbackOfAdded<S>(run: Engine<S>, files: Catalog, st: State<S>, mid: State<S>, later: Fault, n: nat)
    requires OnTop(st.versions, mid.versions, files.Keys) && n == |mid.versions| - |st.versions|
    ensures var added := mid.versions - st.versions;
      && (forall v | v in Desc(added) :: v in files)
      && Migrate(run, files, Down, Limits(Some(n), None), mid, later) ==
         Execute(run, files, Down, Desc(added), mid, later)
  {
    var added := mid.versions - st.versions;
    assert st.versions + added == mid.versions;
    assert |added| == n;
    RollbackPlan(files.Keys, mid.versions, st.versions, added);
    PlanIsAvailable(Down, files.Keys, mid.versions, Limits(Some(n), None));
  }

  /** A plain `rollback`, without a count, that goes through takes out exactly the newest recorded version. */
  lemma PlainRollback<S>(run: Engine<S>, kind: DbType, files: Catalog, st: State<S>, fault: Fault)
    requires st.versions != {} && Max(st.versions) in files
    requires Perform(run, kind, files, RollbackCommand([]), st, fault, NoFault).ok
    ensures Perform(run, kind, files, RollbackCommand([]), st, fault, NoFault).state.versions ==
            st.versions - {Max(st.versions)}
  {
    var m, l := Max(st.versions), Limits(Some(1), None);
    RollbackCount("1");
    assert Value("1") == 1;
    assert st.versions == (st.versions - {m}) + {m};
    RollbackPlan(files.Keys, st.versions, st.versions - {m}, {m});
    PlanIsAvailable(Down, files.Keys, st.versions, l);
    ExecuteOk(run, files, Down, DownPlan(files.Keys, st.versions, l), st, fault);
    DescElems({m});
  }

  /** A concrete number that is none: `rollback -e` reports success and does nothing, whatever is recorded. */
  lemma RollbackOfAnOption<S>(run: Engine<S>, kind: DbType, files: Catalog, st: State<S>, fault: Fault)
    ensures Perform(run, kind, files, RollbackCommand(["-e"]), st, fault, NoFault) == Result(st, true)
  {
    var l := Limits(Some(0), None);
    CountsThatAreNoNumbers(Down, "-e");
    assert DownPlan(files.Keys, st.versions, l) == [];
  }

  /**
    The same text for a stop version: `down -e` reverts as much as a plain `down`, and `up -e` reports success and
    applies nothing, whatever is recorded and whatever is pending.
   */
  lemma OptionAsStopVersion<S>(run: Engine<S>, files: Catalog, st: State<S>, fault: Fault)
    ensures UpOrDown(run, files, Down, ["-e"], st, fault) == UpOrDown(run, files, Down, [], st, fault)
    ensures UpOrDown(run, files, Up, ["-e"], st, fault) == Result(st, true)
  {
    StopsThatAreNoNumbers(Down, "-e");
    StopsThatAreNoNumbers(Up, "-e");
    assert ParseArguments(Down, []) == Some(Limits(None, None));
    assert Revertible(files.Keys, st.versions, Some(0)) == Revertible(files.Keys, st.versions, None);
    var beyond := Limits(None, Some(0));
    assert forall v | v in files :: !NotBeyond(Some(0), v);
    assert UpPlan(files.Keys, st.versions, beyond) == [];
  }

  // ---------- redo ----------

  lemma UpPlanElems(avail: set<Version>, recorded: set<Version>, till: Option<nat>)
    ensures Elems(UpPlan(avail, recorded, Limits(None, till))) ==
            set v | v in avail && v > Newest(recorded) && NotBeyond(till, v)
  {
    AscFacts(set v | v in avail && v > Newest(recorded) && NotBeyond(till, v));
  }

  lemma DownPlanElems(avail: set<Version>, recorded: set<Version>, l: Limits)
    ensures var gone := Elems(DownPlan(avail, recorded, l));
      && gone <= recorded && gone <= avail
      && forall x, y | x in recorded - gone && y in gone :: x < y
  {
    var plan := DownPlan(avail, recorded, l);
    UpperPartIsPrefix(Revertible(avail, recorded, l.till), recorded);
    PlanIsAvailable(Down, avail, recorded, l);
    assert plan <= Desc(recorded);
    PrefixIsTop(plan, recorded);
  }

  /** The versions `redo` takes back out, and those that stay. */
  ghost function Survivors(avail: set<Version>, recorded: set<Version>, args: seq<string>): set<Version> {
    match ParseArguments(Down, args)
    case None => recorded
    case Some(l) => recorded - Elems(DownPlan(avail, recorded, l))
  }

  ghost predicate NoStraggler(avail: set<Version>, recorded: set<Version>, survivors: set<Version>) {
    forall v | v in avail && v > Newest(survivors) && v <= Newest(recorded) :: v in recorded
  }

  /**
    Where the version text has no blank in front, a `redo` that goes through leaves the survivors of its first
    half and every file above them up to the old newest version. No recorded version is lost, and the old record
    comes back exactly when no unapplied file lies in between.
   */
  lemma RedoOutcome<S(!new)>(run: Engine<S>, kind: DbType, files: Catalog, args: seq<string>, st: State<S>,
                             fault: Fault, second: Fault)
    requires !kind.PostgreSQL? && st.versions != {}
    requires Perform(run, kind, files, RedoCommand(args), st, fault, second).ok
    ensures var r := Perform(run, kind, files, RedoCommand(args), st, fault, second).state.versions;
      var stay := Survivors(files.Keys, st.versions, args);
      && r == stay + (set v | v in files && v > Newest(stay) && v <= Max(st.versions))
      && st.versions <= r
      && (r == st.versions <==> NoStraggler(files.Keys, st.versions, stay))
  {
    var cur := Max(st.versions);
    var half := UpOrDown(run, files, Down, args, st, fault);
    var l := ParseArguments(Down, args).value;
    PlanIsAvailable(Down, files.Keys, st.versions, l);
    ExecuteOk(run, files, Down, DownPlan(files.Keys, st.versions, l), st, fault);
    DownPlanElems(files.Keys, st.versions, l);
    var stay := Survivors(files.Keys, st.versions, args);
    assert half.state.versions == stay;
    VersionTextAsArgument(kind, Up, cur);
    var again := Limits(None, Some(cur));
    PlanIsAvailable(Up, files.Keys, stay, again);
    ExecuteOk(run, files, Up, UpPlan(files.Keys, stay, again), half.state, second);
    UpPlanElems(files.Keys, stay, Some(cur));
    RefilledRecord(files.Keys, st.versions, stay);
  }

  /** The versions between the survivors and the old newest one, put back in. */
  lemma RefilledRecord(avail: set<Version>, recorded: set<Version>, stay: set<Version>)
    requires recorded != {} && stay <= recorded && recorded - stay <= avail
    requires forall x, y | x in stay && y in recorded - stay :: x < y
    ensures var r := stay + (set v | v in avail && v > Newest(stay) && v <= Max(recorded));
      recorded <= r && (r == recorded <==> NoStraggler(avail, recorded, stay))
  {
    var r := stay + (set v | v in avail && v > Newest(stay) && v <= Max(recorded));
    forall v | v in recorded ensures v in r {
      if v !in stay {
        assert v in recorded - stay;
      }
    }
    if NoStraggler(avail, recorded, stay) {
      assert r <= recorded;
    }
  }

  /** Where `redo` brings back the record, it brings back the schema. */
  lemma RedoRestoresSchema<S(!new)>(run: Engine<S>, kind: DbType, base: S, files: Catalog, args: seq<string>,
                                    st: State<S>, fault: Fault, second: Fault)
    requires Lawful(run, files) && Agrees(run, base, files, st)
    ensures var r := Perform(run, kind, files, RedoCommand(args), st, fault, second);
      r.ok && r.state.versions == st.versions ==> r.state == st
  {
    PerformKeepsAgreement(run, kind, base, files, files, RedoCommand(args), st, fault, second);
  }

  /**
    `redo` promises to apply again what it took back. On PostgreSQL it never does: with anything recorded,
    it fails, and leaves the record and the schema as its first half left them.
   */
  lemma RedoOnPostgreSQL<S>(run: Engine<S>, files: Catalog, args: seq<string>, st: State<S>, fault: Fault,
                            second: Fault)
    requires st.versions != {}
    ensures var r := Perform(run, PostgreSQL, files, RedoCommand(args), st, fault, second);
      !r.ok && r.state == UpOrDown(run, files, Down, args, st, fault).state
  {
    VersionTextAsArgument(PostgreSQL, Up, Max(st.versions));
  }

  /**
    The condition under which `redo` keeps its promise: once its first half has gone through, the second half
    is given a stop version that `up` accepts exactly when the database type is not PostgreSQL.
   */
  lemma RedoAppliesAgain<S>(run: Engine<S>, kind: DbType, files: Catalog, args: seq<string>, st: State<S>, fault: Fault)
    requires st.versions != {} && UpOrDown(run, files, Down, args, st, fault).ok
    requires var half := UpOrDown(run, files, Down, args, st, fault).state;
      Migrate(run, files, Up, Limits(None, Some(Max(st.versions))), half, NoFault).ok
    ensures Perform(run, kind, files, RedoCommand(args), st, fault, NoFault).ok <==> !kind.PostgreSQL?
  {
    VersionTextAsArgument(kind, Up, Max(st.versions));
  }

  /** A concrete loss: one migration, recorded and present; a plain `redo` on PostgreSQL ends with nothing applied. */
  lemma RedoLosesTheOnlyMigration(run: Engine<int>)
    requires run(["d"], 1) == Some(0)
    ensures var files: Catalog := map[1_507_560_488 := File(Some(["u"]), Some(["d"]))];
      Perform(run, PostgreSQL, files, RedoCommand([]), State({1_507_560_488}, 1), NoFault, NoFault)
      == Result(State({}, 0), false)
  {
    var v: Version := 1_507_560_488;
    var files: Catalog := map[v := File(Some(["u"]), Some(["d"]))];
    var st := State({v}, 1);
    RedoOnPostgreSQL(run, files, [], st, NoFault, NoFault);
    var l := Limits(None, None);
    assert ReadArguments([]) == Some(Raw("", ""));
    assert ParseArguments(Down, []) == Some(l);
    assert Revertible(files.Keys, {v}, None) == {v};
    assert Max({v}) == v && {v} - {v} == {};
    assert Desc({v}) == [v] + Desc({}) == [v];
    assert DownPlan(files.Keys, {v}, l) == [v];
    PlanIsAvailable(Down, files.Keys, {v}, l);
    assert [v][1..] == [];
  }

  // ---------- A full up ----------

  lemma NothingPending(avail: set<Version>, recorded: set<Version>, l: Limits)
    requires forall v | v in avail :: v <= Newest(recorded)
    ensures UpPlan(avail, recorded, l) == []
  {
  }

  /** A plain `up` that goes through applies exactly the files above the old newest version; a second does nothing. */
  lemma FullUp<S>(run: Engine<S>, files: Catalog, st: State<S>, fault: Fault, later: Fault)
    requires UpOrDown(run, files, Up, [], st, fault).ok
    ensures var r := UpOrDown(run, files, Up, [], st, fault).state;
      && r.versions == st.versions + (set v | v in files && v > Newest(st.versions))
      && UpOrDown(run, files, Up, [], r, later) == Result(r, true)
  {
    var l := Limits(None, None);
    assert ParseArguments(Up, []) == Some(l);
    PlanIsAvailable(Up, files.Keys, st.versions, l);
    ExecuteOk(run, files, Up, UpPlan(files.Keys, st.versions, l), st, fault);
    UpPlanElems(files.Keys, st.versions, None);
    var r := UpOrDown(run, files, Up, [], st, fault).state;
    forall v | v in files ensures v <= Newest(r.versions) {
      if v > Newest(st.versions) {
        assert v in r.versions;
      }
    }
    NothingPending(files.Keys, r.versions, l);
  }
}
