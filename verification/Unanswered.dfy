/**
  Commands whose query for recorded versions fails. The failure ends only the subshell of the query, so that a command
  goes on as if nothing were recorded.
 */
module Unanswered {
  import opened Options
  import opened Orders
  import opened Arguments
  import opened Plans
  import opened Discipline
  import opened Replay

  /** What the query gives. */
  function Seen(answered: bool, recorded: set<Version>): set<Version> {
    if answered then recorded else {}
  }

  ghost function UpOrDownSeeing<S>(run: Engine<S>, files: Catalog, d: Direction, args: seq<string>, answered: bool,
                                   st: State<S>, fault: Fault): Result<S> {
    match ParseArguments(d, args)
    case None => Result(st, false)
    case Some(l) =>
      var seen := Seen(answered, st.versions);
      PlanIsAvailable(d, files.Keys, seen, l);
      Execute(run, files, d, Plan(d, files.Keys, seen, l), st, fault)
  }

  /** Whether the queries of a command are answered: the one `redo` makes itself, and those of `down` and `up`. */
  datatype Answers = Answers(own: bool, down: bool, up: bool)

  const ANSWERED := Answers(true, true, true)

  ghost function PerformSeeing<S>(run: Engine<S>, kind: DbType, files: Catalog, c: Command, answers: Answers,
                                  st: State<S>, fault: Fault, second: Fault): Result<S> {
    match c
    case UpCommand(args) => UpOrDownSeeing(run, files, Up, args, answers.up, st, fault)
    case DownCommand(args) => UpOrDownSeeing(run, files, Down, args, answers.down, st, fault)
    case RollbackCommand(args) =>
      (match RollbackArguments(args)
       case None => Result(st, false)
       case Some(a) => UpOrDownSeeing(run, files, Down, a, answers.down, st, fault))
    case RedoCommand(args) =>
      if Seen(answers.own, st.versions) == {} then Result(st, true)
      else
        var r := UpOrDownSeeing(run, files, Down, args, answers.down, st, fault);
        if !r.ok then r
        else UpOrDownSeeing(run, files, Up, [VersionText(kind, Max(st.versions))], answers.up, r.state, second)
  }

  /** With every query answered this is what `Plans` says. */
  lemma AllAnswered<S>(run: Engine<S>, kind: DbType, files: Catalog, c: Command, st: State<S>, fault: Fault,
                       second: Fault)
    ensures PerformSeeing(run, kind, files, c, ANSWERED, st, fault, second) ==
            Perform(run, kind, files, c, st, fault, second)
  {
    assert forall d, args, s: State<S>, f :: UpOrDownSeeing(run, files, d, args, true, s, f) ==
                                  UpOrDown(run, files, d, args, s, f);
  }

  // ---------- down ----------

  /** Without an answer `down` does nothing, and reports success for all arguments it can read. */
  lemma DownUnanswered<S>(run: Engine<S>, files: Catalog, args: seq<string>, st: State<S>, fault: Fault)
    ensures UpOrDownSeeing(run, files, Down, args, false, st, fault) ==
            Result(st, ParseArguments(Down, args).Some?)
  {
    assert Revertible(files.Keys, {}, None) == {};
    var l := ParseArguments(Down, args);
    if l.Some? {
      assert Revertible(files.Keys, {}, l.value.till) == {};
    }
  }

  /** The commands `down` and `rollback` make that query and no other. */
  lemma DownCommandsUnanswered<S>(run: Engine<S>, kind: DbType, files: Catalog, args: seq<string>, answers: Answers,
                                  st: State<S>, fault: Fault)
    requires !answers.down
    ensures PerformSeeing(run, kind, files, DownCommand(args), answers, st, fault, NoFault) ==
            Result(st, ParseArguments(Down, args).Some?)
    ensures PerformSeeing(run, kind, files, RollbackCommand(args), answers, st, fault, NoFault) ==
            Result(st, RollbackArguments(args).Some? && ParseArguments(Down, RollbackArguments(args).value).Some?)
  {
    DownUnanswered(run, files, args, st, fault);
    if RollbackArguments(args).Some? {
      DownUnanswered(run, files, RollbackArguments(args).value, st, fault);
    }
  }

  /** The same for `redo`, when either of the queries before its second half fails. */
  lemma RedoUnanswered<S>(run: Engine<S>, kind: DbType, files: Catalog, args: seq<string>, own: bool, down: bool,
                          st: State<S>, fault: Fault, second: Fault)
    requires !own || !down
    ensures PerformSeeing(run, kind, files, RedoCommand(args), Answers(own, down, true), st, fault, second) ==
            Result(st, !own || st.versions == {} || (ParseArguments(Down, args).Some? && !kind.PostgreSQL?))
  {
    if own && st.versions != {} {
      DownUnanswered(run, files, args, st, fault);
      var v := Max(st.versions);
      VersionTextAsArgument(kind, Up, v);
      assert Newest(st.versions) == v;
      assert (set u | u in files.Keys && u > v && NotBeyond(Some(v), u)) == {};
    }
  }

  // ---------- up ----------

  /** What `up` takes on when it knows of nothing recorded. */
  ghost function Blind(files: Catalog, l: Limits): seq<Version> {
    UpPlan(files.Keys, {}, l)
  }

  /** The migrations of an ascending plan, up to the first that is recorded. */
  lemma {:induction false} ExecuteBlind<S>(run: Engine<S>, files: Catalog, plan: seq<Version>, st: State<S>,
                                           fault: Fault)
    requires Ascending(plan) && forall v | v in plan :: v in files
    ensures var r := Execute(run, files, Up, plan, st, fault);
      && st.versions <= r.state.versions <= st.versions + Elems(plan)
      && (r.ok ==> Elems(plan) !! st.versions && r.state.versions == st.versions + Elems(plan))
      && (forall u, v | u in r.state.versions && u !in st.versions && v in plan && v in st.versions :: u < v)
    decreases |plan|
  {
    if plan != [] {
      var v, rest := plan[0], plan[1..];
      var r := Migrate1(run, files[v], Up, v, st, fault);
      assert Elems(plan) == {v} + Elems(rest);
      if r.ok {
        ExecuteBlind(run, files, rest, r.state, fault.Next());
      }
    }
  }

  /**
    Without an answer `up` starts from the oldest file. It loses no row, and adds rows only below the oldest recorded
    version it comes to, where it fails; so it goes through only if it comes to none.
   */
  lemma UpUnanswered<S>(run: Engine<S>, files: Catalog, args: seq<string>, st: State<S>, fault: Fault)
    requires ParseArguments(Up, args).Some?
    ensures var r := UpOrDownSeeing(run, files, Up, args, false, st, fault);
      var plan := Blind(files, ParseArguments(Up, args).value);
      && st.versions <= r.state.versions <= st.versions + Elems(plan)
      && (r.ok ==> Elems(plan) !! st.versions && r.state.versions == st.versions + Elems(plan))
      && (forall u, v | u in r.state.versions && u !in st.versions && v in plan && v in st.versions :: u < v)
  {
    var l := ParseArguments(Up, args).value;
    var s := set v | v in files.Keys && v > Newest({}) && NotBeyond(l.till, v);
    AscFacts(s);
    PlanIsAvailable(Up, files.Keys, {}, l);
    ExecuteBlind(run, files, Blind(files, l), st, fault);
  }

  /**
    Where the oldest file is recorded, as it is unless older ones came late, the record never changes: the oldest UP
    section runs again and its row is refused. The schema still is the replay of the record if and only if that run did
    not come about, was refused or changed nothing.
   */
  lemma OldestRunsAgain<S(!new)>(run: Engine<S>, base: S, files: Catalog, all: Catalog, args: seq<string>, st: State<S>,
                                 fault: Fault)
    requires Covers(files, all) && Agrees(run, base, all, st)
    requires ParseArguments(Up, args).Some?
    requires var plan := Blind(files, ParseArguments(Up, args).value);
      plan != [] && plan[0] in st.versions
    ensures var v := Blind(files, ParseArguments(Up, args).value)[0];
      var r := UpOrDownSeeing(run, files, Up, args, false, st, fault);
      var again := ApplyUp(run, files, v, st.schema);
      && !r.ok && r.state.versions == st.versions
      && (Agrees(run, base, all, r.state) <==> fault == BeforeSection(0) || again == None || again == Some(st.schema))
  {
    var l := ParseArguments(Up, args).value;
    PlanIsAvailable(Up, files.Keys, {}, l);
    var v := Blind(files, l)[0];
    var r := UpOrDownSeeing(run, files, Up, args, false, st, fault);
    assert r == Migrate1(run, files[v], Up, v, st, fault);
  }

  lemma {:induction false} FirstGoesThrough<S>(run: Engine<S>, files: Catalog, plan: seq<Version>, st: State<S>,
                                               fault: Fault)
    requires plan != [] && Ascending(plan) && forall v | v in plan :: v in files
    ensures var r := Migrate1(run, files[plan[0]], Up, plan[0], st, fault);
      if r.ok then Execute(run, files, Up, plan, st, fault).state.versions != st.versions
      else Execute(run, files, Up, plan, st, fault) == r
  {
    var r := Migrate1(run, files[plan[0]], Up, plan[0], st, fault);
    if r.ok {
      ExecuteBlind(run, files, plan[1..], r.state, fault.Next());
    }
  }

  /**
    A failed query should end the command with an error and leave everything as it is. It does so exactly for arguments
    that are refused, and for `up` if there is an oldest file to start from whose section does not run, or runs without
    changing anything and gets no row.
   */
  lemma FailedQueryIsAnError<S>(run: Engine<S>, files: Catalog, d: Direction, args: seq<string>, st: State<S>,
                                fault: Fault)
    ensures UpOrDownSeeing(run, files, d, args, false, st, fault) == Result(st, false) <==>
            var l := ParseArguments(d, args);
            l.None? ||
            (d.Up? && Blind(files, l.value) != [] &&
             var v := Blind(files, l.value)[0];
             var again := ApplyUp(run, files, v, st.schema);
             || again == None || fault == BeforeSection(0)
             || (again == Some(st.schema) && (v in st.versions || fault == BeforeRow(0))))
  {
    var l := ParseArguments(d, args);
    if d.Down? {
      DownUnanswered(run, files, args, st, fault);
    } else if l.Some? {
      var plan := Blind(files, l.value);
      PlanIsAvailable(Up, files.Keys, {}, l.value);
      AscFacts(set v | v in files.Keys && v > Newest({}) && NotBeyond(l.value.till, v));
      if plan != [] {
        FirstGoesThrough(run, files, plan, st, fault);
      }
    }
  }

  /** A concrete database with one migration, applied a second time by an `up` whose query failed. */
  lemma AppliedTwice(v: Version)
    ensures var run := (script, n: int) => Some(n + 1);
      var files: Catalog := map[v := File(Some(["u"]), None)];
      var st := State({v}, 1);
      && Agrees(run, 0, files, st)
      && UpOrDown(run, files, Up, [], st, NoFault) == Result(st, true)
      && UpOrDownSeeing(run, files, Up, [], false, st, NoFault) == Result(State({v}, 2), false)
      && !Agrees(run, 0, files, State({v}, 2))
  {
    var run := (script, n: int) => Some(n + 1);
    var files: Catalog := map[v := File(Some(["u"]), None)];
    var st := State({v}, 1);
    assert ReadArguments([]) == Some(Raw("", "")) && ParseArguments(Up, []) == Some(Limits(None, None));
    assert {} + {v} == {v};
    RebuiltAbove(run, files, {}, 0, v);
    assert Rebuilt(run, files, {}, 0) == Some(0);
    var l := Limits(None, None);
    assert files.Keys == {v} && UpPlan({v}, {v}, l) == [];
    OneFilePlan(Up, v);
    OldestRunsAgain(run, 0, files, files, [], st, NoFault);
  }

  /** And one with a late file, which goes in below a recorded version. */
  lemma LateFileGoesIn(low: Version, high: Version)
    requires low < high
    ensures var run := (script, n: int) => Some(n + 1);
      var files: Catalog := map[low := File(Some(["u"]), None)];
      var st := State({high}, 1);
      && UpOrDown(run, files, Up, [], st, NoFault) == Result(st, true)
      && UpOrDownSeeing(run, files, Up, [], false, st, NoFault) == Result(State({high, low}, 2), true)
  {
    var run := (script, n: int) => Some(n + 1);
    var files: Catalog := map[low := File(Some(["u"]), None)];
    var st := State({high}, 1);
    assert ReadArguments([]) == Some(Raw("", "")) && ParseArguments(Up, []) == Some(Limits(None, None));
    var l := Limits(None, None);
    assert files.Keys == {low};
    assert Newest({high}) == high && UpPlan({low}, {high}, l) == [];
    OneFilePlan(Up, low);
    PlanIsAvailable(Up, files.Keys, {}, l);
    assert [low][1..] == [] && {high} + {low} == {high, low};
    var r := Migrate1(run, files[low], Up, low, st, NoFault);
    assert r == Result(State({high, low}, 2), true);
    assert Execute(run, files, Up, [low], st, NoFault) == Execute(run, files, Up, [], r.state, NoFault);
  }
}
