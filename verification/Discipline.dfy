/**
  How plans meet the version table: `up` always takes the next pending version, `down` always the newest
  recorded one. Everything that holds over whole runs follows from this.
 */
module Discipline {
  import opened Options
  import opened Orders
  import opened Arguments
  import opened Plans

  /** The oldest file newer than everything recorded. */
  ghost predicate IsNextPending(avail: set<Version>, recorded: set<Version>, v: Version) {
    && v in avail && v > Newest(recorded)
    && forall u | u in avail && u > Newest(recorded) :: v <= u
  }

  ghost predicate IsNewestWithFile(avail: set<Version>, recorded: set<Version>, v: Version) {
    recorded != {} && v == Max(recorded) && v in avail
  }

  ghost predicate MayTake(d: Direction, avail: set<Version>, recorded: set<Version>, v: Version) {
    if d.Up? then IsNextPending(avail, recorded, v) else IsNewestWithFile(avail, recorded, v)
  }

  ghost function After(d: Direction, recorded: set<Version>, v: Version): set<Version> {
    if d.Up? then recorded + {v} else recorded - {v}
  }

  ghost predicate Ready(d: Direction, avail: set<Version>, recorded: set<Version>, plan: seq<Version>)
    decreases |plan|
  {
    plan == [] || (MayTake(d, avail, recorded, plan[0]) && Ready(d, avail, After(d, recorded, plan[0]), plan[1..]))
  }

  lemma {:induction false} NextPendingInTurn(avail: set<Version>, recorded: set<Version>, q: seq<Version>)
    requires Ascending(q)
    requires forall i | 0 <= i < |q| :: q[i] in avail && q[i] > Newest(recorded)
    requires forall i, u | 0 <= i < |q| && u in avail && Newest(recorded) < u < q[i] :: u in q
    ensures Ready(Up, avail, recorded, q)
    decreases |q|
  {
    if q != [] {
      var rest := q[1..];
      assert Newest(recorded + {q[0]}) == q[0];
      forall i, u | 0 <= i < |rest| && u in avail && q[0] < u < rest[i] ensures u in rest {
        assert rest[i] == q[i + 1] && u in q;
        var k :| 0 <= k < |q| && q[k] == u;
        assert rest[k - 1] == u;
      }
      NextPendingInTurn(avail, recorded + {q[0]}, rest);
    }
  }

  lemma {:induction false} NewestInTurn(avail: set<Version>, recorded: set<Version>, q: seq<Version>)
    requires q <= Desc(recorded)
    requires forall i | 0 <= i < |q| :: q[i] in avail
    ensures Ready(Down, avail, recorded, q)
    decreases |q|
  {
    if q != [] {
      assert q[1..] <= Desc(recorded - {Max(recorded)});
      NewestInTurn(avail, recorded - {Max(recorded)}, q[1..]);
    }
  }

  /** What comes before a version of an ascending listing in the set comes before it in the listing. */
  lemma EarlierInPlan(s: set<Version>, steps: Option<nat>, i: nat, u: Version)
    requires i < |FirstN(steps, Asc(s))| && u in s && u < FirstN(steps, Asc(s))[i]
    ensures u in FirstN(steps, Asc(s))
  {
    AscFacts(s);
    var all, q := Asc(s), FirstN(steps, Asc(s));
    assert u in Elems(all) && u in all;
    var k :| 0 <= k < |all| && all[k] == u;
    if i <= k {
      assert all[i] == q[i];
    } else {
      assert q[k] == u;
    }
  }

  lemma UpPlanReady(avail: set<Version>, recorded: set<Version>, l: Limits)
    ensures Ready(Up, avail, recorded, UpPlan(avail, recorded, l))
  {
    var s := set v | v in avail && v > Newest(recorded) && NotBeyond(l.till, v);
    AscFacts(s);
    var all, q := Asc(s), UpPlan(avail, recorded, l);
    forall i | 0 <= i < |q| ensures q[i] in s {
      assert all[i] in Elems(all);
    }
    forall i, u | 0 <= i < |q| && u in avail && Newest(recorded) < u < q[i] ensures u in q {
      EarlierInPlan(s, l.steps, i, u);
    }
    NextPendingInTurn(avail, recorded, q);
  }

  lemma DownPlanReady(avail: set<Version>, recorded: set<Version>, l: Limits)
    ensures Ready(Down, avail, recorded, DownPlan(avail, recorded, l))
  {
    var s := Revertible(avail, recorded, l.till);
    UpperPartIsPrefix(s, recorded);
    PlanIsAvailable(Down, avail, recorded, l);
    NewestInTurn(avail, recorded, DownPlan(avail, recorded, l));
  }

  lemma PlanReady(d: Direction, avail: set<Version>, recorded: set<Version>, l: Limits)
    ensures Ready(d, avail, recorded, Plan(d, avail, recorded, l))
  {
    UpPlanReady(avail, recorded, l);
    DownPlanReady(avail, recorded, l);
  }

  /** With one file there is one plan. */
  lemma OneFilePlan(d: Direction, v: Version)
    ensures Plan(d, {v}, if d.Up? then {} else {v}, Limits(None, None)) == [v]
  {
    var none: set<Version> := {};
    if d.Up? {
      var s := set u | u in {v} && u > Newest(none) && NotBeyond(None, u);
      assert s == {v};
      AscFacts(s);
      var plan := UpPlan({v}, none, Limits(None, None));
      PlanReady(Up, {v}, none, Limits(None, None));
      assert v in Elems(plan) && v in plan;
      assert forall i | 0 <= i < |plan| :: plan[i] in Elems(plan);
    } else {
      assert Revertible({v}, {v}, None) == {v};
      assert Max({v}) == v && {v} - {v} == none;
      assert Desc({v}) == [v] + Desc(none);
    }
  }

  lemma OneFileRuns<S>(run: Engine<S>, f: File, v: Version, d: Direction, st: State<S>, fault: Fault)
    requires st.versions == if d.Up? then {} else {v}
    ensures UpOrDown(run, map[v := f], d, [], st, fault) == Migrate1(run, f, d, v, st, fault)
  {
    var l := Limits(None, None);
    var files: Catalog := map[v := f];
    assert ReadArguments([]) == Some(Raw("", "")) && ParseArguments(d, []) == Some(l);
    OneFilePlan(d, v);
    PlanIsAvailable(d, files.Keys, st.versions, l);
    assert files.Keys == {v} && Plan(d, files.Keys, st.versions, l) == [v];
    assert [v][1..] == [];
    var r := Migrate1(run, f, d, v, st, fault);
    assert Execute(run, files, d, [v], st, fault) ==
           if !r.ok then r else Execute(run, files, d, [], r.state, fault.Next());
  }

  // ---------- The events of a run ----------

  /** A version row that was inserted or deleted. */
  datatype Event = Event(d: Direction, v: Version)

  function Events<S>(run: Engine<S>, files: Catalog, d: Direction, plan: seq<Version>, st: State<S>,
                     fault: Fault): seq<Event>
    requires forall v | v in plan :: v in files
    decreases |plan|
  {
    if plan == [] then []
    else
      var r := Migrate1(run, files[plan[0]], d, plan[0], st, fault);
      if !r.ok then [] else [Event(d, plan[0])] + Events(run, files, d, plan[1..], r.state, fault.Next())
  }

  ghost function Play(recorded: set<Version>, log: seq<Event>): set<Version>
    decreases |log|
  {
    if log == [] then recorded else Play(After(log[0].d, recorded, log[0].v), log[1..])
  }

  /** A log in which the table is a stack: rows go in above everything recorded, and come out at the top. */
  ghost predicate StackLike(recorded: set<Version>, log: seq<Event>)
    decreases |log|
  {
    log == [] || (
      && (log[0].d.Up? ==> log[0].v > Newest(recorded))
      && (log[0].d.Down? ==> recorded != {} && log[0].v == Max(recorded))
      && StackLike(After(log[0].d, recorded, log[0].v), log[1..]))
  }

  lemma {:induction false} PlayConcat(recorded: set<Version>, a: seq<Event>, b: seq<Event>)
    ensures Play(recorded, a + b) == Play(Play(recorded, a), b)
    ensures StackLike(recorded, a + b) <==> StackLike(recorded, a) && StackLike(Play(recorded, a), b)
    decreases |a|
  {
    if a == [] {
      assert a + b == b;
    } else {
      assert (a + b)[1..] == a[1..] + b;
      PlayConcat(After(a[0].d, recorded, a[0].v), a[1..], b);
    }
  }

  lemma {:induction false} EventsAreStackLike<S>(run: Engine<S>, files: Catalog, d: Direction, plan: seq<Version>,
                                                 st: State<S>, fault: Fault)
    requires forall v | v in plan :: v in files
    requires Ready(d, files.Keys, st.versions, plan)
    ensures var log := Events(run, files, d, plan, st, fault);
      && StackLike(st.versions, log)
      && Play(st.versions, log) == Execute(run, files, d, plan, st, fault).state.versions
    decreases |plan|
  {
    if plan != [] {
      var r := Migrate1(run, files[plan[0]], d, plan[0], st, fault);
      if r.ok {
        EventsAreStackLike(run, files, d, plan[1..], r.state, fault.Next());
      }
    }
  }

  // ---------- What a plan that goes through leaves behind ----------

  lemma {:induction false} ExecuteOk<S>(run: Engine<S>, files: Catalog, d: Direction, plan: seq<Version>,
                                        st: State<S>, fault: Fault)
    requires forall v | v in plan :: v in files
    ensures var r := Execute(run, files, d, plan, st, fault);
      r.ok ==> r.state.versions == if d.Up? then st.versions + Elems(plan) else st.versions - Elems(plan)
    decreases |plan|
  {
    if plan != [] {
      var r := Migrate1(run, files[plan[0]], d, plan[0], st, fault);
      if r.ok {
        ExecuteOk(run, files, d, plan[1..], r.state, fault.Next());
        assert Elems(plan) == {plan[0]} + Elems(plan[1..]);
      }
    }
  }
}
