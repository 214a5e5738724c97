/**
  What a count and a stop version mean for the record, said of the versions themselves: which ones a command that goes
  through has taken, and which ones it has not.
 */
module LimitedRuns {
  import opened Options
  import opened Orders
  import opened Text
  import opened Arguments
  import opened Plans
  import opened Discipline
  import opened Commands

  lemma {:induction false} DistinctCount(q: seq<Version>)
    requires forall i, j | 0 <= i < j < |q| :: q[i] != q[j]
    ensures |Elems(q)| == |q|
  {
    if q != [] {
      var front, last := q[..|q| - 1], q[|q| - 1];
      DistinctCount(front);
      assert q == front + [last];
      ElemsConcat(front, [last]);
      assert Elems([last]) == {last} && last !in Elems(front);
    }
  }

  // ---------- down ----------

  /** The newest of the versions `down` can get to are gone, as many as the count allows. */
  ghost predicate TakenFromTop(steps: Option<nat>, recorded: set<Version>, gone: set<Version>, can: set<Version>) {
    && gone <= can <= recorded
    && (forall x, y | x in recorded - gone && y in gone :: x < y)
    && (steps.Some? ==> |gone| <= steps.value)
    && (gone == can || (steps.Some? && |gone| == steps.value))
  }

  lemma DownPlanTakes(avail: set<Version>, recorded: set<Version>, l: Limits)
    ensures TakenFromTop(l.steps, recorded, Elems(DownPlan(avail, recorded, l)), Revertible(avail, recorded, l.till))
  {
    var can := Revertible(avail, recorded, l.till);
    var plan := DownPlan(avail, recorded, l);
    DescFacts(can);
    DistinctCount(plan);
    DownPlanElems(avail, recorded, l);
    forall v | v in plan ensures v in can {
      assert v in Elems(Desc(can));
    }
  }

  lemma DownLeaves<S>(run: Engine<S>, files: Catalog, args: seq<string>, l: Limits, st: State<S>, fault: Fault)
    requires ParseArguments(Down, args) == Some(l) && UpOrDown(run, files, Down, args, st, fault).ok
    ensures var left := UpOrDown(run, files, Down, args, st, fault).state.versions;
      left <= st.versions &&
      TakenFromTop(l.steps, st.versions, st.versions - left, Revertible(files.Keys, st.versions, l.till))
  {
    var plan := DownPlan(files.Keys, st.versions, l);
    PlanIsAvailable(Down, files.Keys, st.versions, l);
    ExecuteOk(run, files, Down, plan, st, fault);
    DownPlanTakes(files.Keys, st.versions, l);
    assert st.versions - (st.versions - Elems(plan)) == Elems(plan);
  }

  /** A version without a file at or above v keeps v in place. */
  ghost predicate IsHeld(avail: set<Version>, recorded: set<Version>, v: Version) {
    exists u | u in recorded :: u >= v && u !in avail
  }

  lemma HeldIsNotRevertible(avail: set<Version>, recorded: set<Version>, till: Option<nat>, v: Version)
    requires v in recorded
    ensures v in Revertible(avail, recorded, till) <==> (till.Some? ==> v >= till.value) && !IsHeld(avail, recorded, v)
  {
  }

  /**
    Every `down` that goes through: it takes out the newest versions, each with a file and none below the stop version,
    at most as many as the count says; and fewer only if every other version from the stop version on is held by
    a version without a file at or above it.
   */
  lemma DownTakes<S>(run: Engine<S>, files: Catalog, args: seq<string>, l: Limits, st: State<S>, fault: Fault)
    requires ParseArguments(Down, args) == Some(l) && UpOrDown(run, files, Down, args, st, fault).ok
    ensures var left := UpOrDown(run, files, Down, args, st, fault).state.versions;
      var gone := st.versions - left;
      && left <= st.versions
      && (forall v | v in gone :: v in files && (l.till.Some? ==> v >= l.till.value))
      && (forall u, v | u in left && v in gone :: u < v)
      && (l.steps.Some? ==> |gone| <= l.steps.value)
      && ((l.steps.Some? && |gone| == l.steps.value) ||
          forall v | v in left && (l.till.Some? ==> v >= l.till.value) :: IsHeld(files.Keys, st.versions, v))
  {
    DownLeaves(run, files, args, l, st, fault);
    var left := UpOrDown(run, files, Down, args, st, fault).state.versions;
    assert left == st.versions - (st.versions - left);
    assert forall v | v in st.versions && v !in files :: IsHeld(files.Keys, st.versions, v);
    forall v | v in st.versions
      ensures v in Revertible(files.Keys, st.versions, l.till) <==>
              (l.till.Some? ==> v >= l.till.value) && !IsHeld(files.Keys, st.versions, v)
    {
      HeldIsNotRevertible(files.Keys, st.versions, l.till, v);
    }
  }

  /**
    With a version as stop version `down` reverts it and everything above, and no more; only versions held by a
    missing file stay besides.
   */
  lemma DownTill<S>(run: Engine<S>, files: Catalog, till: Version, st: State<S>, fault: Fault)
    requires UpOrDown(run, files, Down, [Padded(till, 10)], st, fault).ok
    ensures var left := UpOrDown(run, files, Down, [Padded(till, 10)], st, fault).state.versions;
      && left == (set v | v in st.versions && (v < till || IsHeld(files.Keys, st.versions, v)))
      && (st.versions <= files.Keys ==> left == set v | v in st.versions && v < till)
  {
    VersionTextAsArgument(MySQL, Down, till);
    DownLeaves(run, files, [Padded(till, 10)], Limits(None, Some(till)), st, fault);
    var left := UpOrDown(run, files, Down, [Padded(till, 10)], st, fault).state.versions;
    forall v | v in st.versions ensures v in left <==> v < till || IsHeld(files.Keys, st.versions, v) {
      HeldIsNotRevertible(files.Keys, st.versions, Some(till), v);
    }
  }

  /** `rollback n` that goes through takes out the newest n versions, or all there are. */
  lemma RollbackTakes<S>(run: Engine<S>, kind: DbType, files: Catalog, count: string, st: State<S>, fault: Fault)
    requires count != "" && AllDigits(count) && st.versions <= files.Keys
    requires Perform(run, kind, files, RollbackCommand([count]), st, fault, NoFault).ok
    ensures var left := Perform(run, kind, files, RollbackCommand([count]), st, fault, NoFault).state.versions;
      var gone := st.versions - left;
      && left <= st.versions && (forall u, v | u in left && v in gone :: u < v)
      && |gone| == if Value(count) <= |st.versions| then Value(count) else |st.versions|
  {
    RollbackCount(count);
    RollbackForms([count]);
    DownLeaves(run, files, ["steps=" + count], Limits(Some(Value(count)), None), st, fault);
    assert Revertible(files.Keys, st.versions, None) == st.versions;
    var left := UpOrDown(run, files, Down, ["steps=" + count], st, fault).state.versions;
    CountOfRest(st.versions, left);
    assert left == st.versions - (st.versions - left);
  }

  lemma CountOfRest(all: set<Version>, left: set<Version>)
    requires left <= all
    ensures |all - left| == |all| - |left|
  {
  }

  // ---------- up ----------

  /** The oldest of the pending versions are in, as many as the count allows. */
  ghost predicate TakenFromBottom(steps: Option<nat>, added: set<Version>, can: set<Version>) {
    && added <= can && (forall x, y | x in added && y in can - added :: x < y)
    && (steps.Some? ==> |added| <= steps.value)
    && (added == can || (steps.Some? && |added| == steps.value))
  }

  lemma FirstOfAsc(steps: Option<nat>, can: set<Version>)
    ensures TakenFromBottom(steps, Elems(FirstN(steps, Asc(can))), can)
  {
    var all, plan := Asc(can), FirstN(steps, Asc(can));
    AscFacts(can);
    DistinctCount(plan);
    assert plan == all[..|plan|];
    forall x, y | x in Elems(plan) && y in can - Elems(plan) ensures x < y {
      EarlierIsLess(all, |plan|, x, y);
    }
    forall v | v in plan ensures v in can {
      assert v in Elems(all);
    }
  }

  lemma EarlierIsLess(q: seq<Version>, n: nat, x: Version, y: Version)
    requires n <= |q| && Ascending(q) && x in q[..n] && y in Elems(q) && y !in q[..n]
    ensures x < y
  {
    var i :| 0 <= i < n && q[i] == x;
    var j :| 0 <= j < |q| && q[j] == y;
    assert forall k | 0 <= k < n :: q[..n][k] == q[k];
  }

  /** The files newer than everything recorded, up to the stop version. */
  ghost function PendingUpTo(avail: set<Version>, recorded: set<Version>, till: Option<nat>): set<Version> {
    set v | v in avail && (forall w | w in recorded :: w < v) && (till.Some? ==> v <= till.value)
  }

  lemma PlanIsPending(avail: set<Version>, recorded: set<Version>, l: Limits)
    ensures UpPlan(avail, recorded, l) == FirstN(l.steps, Asc(PendingUpTo(avail, recorded, l.till)))
  {
    var can := set v | v in avail && v > Newest(recorded) && NotBeyond(l.till, v);
    forall v | v in avail ensures v > Newest(recorded) <==> forall w | w in recorded :: w < v {
      AboveNewest(recorded, v);
    }
    assert can == PendingUpTo(avail, recorded, l.till);
  }

  lemma AboveNewest(recorded: set<Version>, v: Version)
    ensures v > Newest(recorded) <==> forall w | w in recorded :: w < v
  {
    if recorded != {} {
      assert Newest(recorded) == Max(recorded);
    }
  }

  /**
    Every `up` that goes through: it loses nothing and puts in the oldest of the files newer than all recorded ones and
    not beyond the stop version, at most as many as the count says, and fewer only if there are no more.
   */
  lemma UpTakes<S>(run: Engine<S>, files: Catalog, args: seq<string>, l: Limits, st: State<S>, fault: Fault)
    requires ParseArguments(Up, args) == Some(l) && UpOrDown(run, files, Up, args, st, fault).ok
    ensures var now := UpOrDown(run, files, Up, args, st, fault).state.versions;
      st.versions <= now && TakenFromBottom(l.steps, now - st.versions, PendingUpTo(files.Keys, st.versions, l.till))
  {
    var plan := UpPlan(files.Keys, st.versions, l);
    PlanIsAvailable(Up, files.Keys, st.versions, l);
    ExecuteOk(run, files, Up, plan, st, fault);
    PlanIsPending(files.Keys, st.versions, l);
    FirstOfAsc(l.steps, PendingUpTo(files.Keys, st.versions, l.till));
    assert (st.versions + Elems(plan)) - st.versions == Elems(plan);
  }

  /** With a version as stop version `up` applies every pending migration up to it, itself included, and no more. */
  lemma UpTill<S>(run: Engine<S>, files: Catalog, till: Version, st: State<S>, fault: Fault)
    requires UpOrDown(run, files, Up, [Padded(till, 10)], st, fault).ok
    ensures UpOrDown(run, files, Up, [Padded(till, 10)], st, fault).state.versions ==
            st.versions + set v | v in files && v <= till && forall w | w in st.versions :: w < v
  {
    VersionTextAsArgument(MySQL, Up, till);
    UpTakes(run, files, [Padded(till, 10)], Limits(None, Some(till)), st, fault);
    var now := UpOrDown(run, files, Up, [Padded(till, 10)], st, fault).state.versions;
    assert now == st.versions + (now - st.versions);
  }

  // ---------- Commands with nothing to do ----------

  /** `rollback` takes one argument at most. */
  lemma RollbackOfTwo<S>(run: Engine<S>, kind: DbType, files: Catalog, args: seq<string>, st: State<S>, fault: Fault)
    requires |args| > 1
    ensures Perform(run, kind, files, RollbackCommand(args), st, fault, NoFault) == Result(st, false)
  {
    RollbackForms(args);
  }

  /** With nothing recorded `redo` reports success and does nothing, whatever its arguments. */
  lemma NothingToRedo<S>(run: Engine<S>, kind: DbType, files: Catalog, args: seq<string>, schema: S, fault: Fault,
                         second: Fault)
    ensures var st := State({}, schema);
      Perform(run, kind, files, RedoCommand(args), st, fault, second) == Result(st, true)
  {
  }
}
