/**
  Whole histories of one database: any commands with any arguments and any trouble, and between them any change
  to the migrations directory.
 */
module Histories {
  import opened Orders
  import opened Arguments
  import opened Plans
  import opened Discipline
  import opened Replay

  /** `archive` remembers every migration as it was when it was applied. */
  datatype World<S> = World(files: Catalog, archive: Catalog, st: State<S>)

  datatype Action = Run(c: Command, fault: Fault, second: Fault) | Change(files: Catalog)

  ghost function Act<S>(run: Engine<S>, kind: DbType, w: World<S>, a: Action): World<S> {
    match a
    case Run(c, fault, second) =>
      World(w.files, w.archive + w.files, Perform(run, kind, w.files, c, w.st, fault, second).state)
    case Change(files) => w.(files := files)
  }

  ghost function History<S>(run: Engine<S>, kind: DbType, w: World<S>, actions: seq<Action>): World<S>
    decreases |actions|
  {
    if actions == [] then w else History(run, kind, Act(run, kind, w, actions[0]), actions[1..])
  }

  /** An applied migration is not edited. It may disappear, and any other file may come, go and change. */
  ghost predicate Unedited<S>(w: World<S>, files: Catalog) {
    forall v | v in w.st.versions && v in files && v in w.archive :: files[v] == w.archive[v]
  }

  /** The assumptions on a history: applied files stay unedited, and DOWN undoes UP in every new file. */
  ghost predicate Legal<S(!new)>(run: Engine<S>, kind: DbType, w: World<S>, actions: seq<Action>)
    decreases |actions|
  {
    actions == [] || (
      && (actions[0].Change? ==> Unedited(w, actions[0].files) && Lawful(run, actions[0].files))
      && Legal(run, kind, Act(run, kind, w, actions[0]), actions[1..]))
  }

  /** No command was cut off between a section and its version row. */
  ghost predicate Atomic(actions: seq<Action>) {
    forall i | 0 <= i < |actions| && actions[i].Run? :: !actions[i].fault.BeforeRow? && !actions[i].second.BeforeRow?
  }

  ghost predicate Sound<S(!new)>(run: Engine<S>, base: S, w: World<S>) {
    Agrees(run, base, w.archive, w.st) && Unedited(w, w.files) && Lawful(run, w.files)
  }

  /** A new database, nothing recorded, is where a history may start. */
  lemma NewDatabaseIsSound<S(!new)>(run: Engine<S>, base: S, files: Catalog)
    requires Lawful(run, files)
    ensures Sound(run, base, World(files, map[], State({}, base)))
  {
    assert Asc({}) == [];
  }

  lemma Overlay<S(!new)>(run: Engine<S>, base: S, w: World<S>)
    requires Sound(run, base, w)
    ensures Covers(w.files, w.archive + w.files) && Agrees(run, base, w.archive + w.files, w.st)
  {
    AgreesLocal(run, base, w.archive, w.archive + w.files, w.st);
  }

  lemma {:induction false} ActKeepsSound<S(!new)>(run: Engine<S>, kind: DbType, base: S, w: World<S>, a: Action)
    requires Sound(run, base, w) && Legal(run, kind, w, [a]) && Atomic([a])
    ensures Sound(run, base, Act(run, kind, w, a))
  {
    assert [a][0] == a;
    if a.Run? {
      Overlay(run, base, w);
      PerformKeepsAgreement(run, kind, base, w.files, w.archive + w.files, a.c, w.st, a.fault, a.second);
    }
  }

  /**
    The replay invariant. After every history the schema is what the UP sections of the recorded versions give
    when replayed in ascending order.
   */
  lemma {:induction false} HistoryKeepsAgreement<S(!new)>(run: Engine<S>, kind: DbType, base: S, w: World<S>,
                                                          actions: seq<Action>)
    requires Sound(run, base, w) && Legal(run, kind, w, actions) && Atomic(actions)
    ensures Sound(run, base, History(run, kind, w, actions))
    decreases |actions|
  {
    if actions != [] {
      var a := actions[0];
      assert [a][0] == a && [a][1..] == [];
      ActKeepsSound(run, kind, base, w, a);
      assert forall i | 0 <= i < |actions[1..]| :: actions[1..][i] == actions[i + 1];
      HistoryKeepsAgreement(run, kind, base, Act(run, kind, w, a), actions[1..]);
    }
  }

  /**
    The crash form. Cut off the last command of a history at any point, also between a section and its version
    row: the schema is the replay of the record, or exactly one migration ahead of it, and that migration is
    the next pending one already applied or the newest recorded one already reverted.
   */
  lemma HistoryCutShort<S(!new)>(run: Engine<S>, kind: DbType, base: S, w: World<S>, actions: seq<Action>, last: Action)
    requires Sound(run, base, w) && Legal(run, kind, w, actions) && Atomic(actions) && last.Run?
    ensures var before := History(run, kind, w, actions);
      var after := Act(run, kind, before, last);
      Agrees(run, base, after.archive, after.st) ||
      exists d :: OneAhead(run, base, after.files.Keys, after.archive, d, after.st)
  {
    HistoryKeepsAgreement(run, kind, base, w, actions);
    var before := History(run, kind, w, actions);
    Overlay(run, base, before);
    PerformKeepsAgreement(run, kind, base, before.files, before.archive + before.files, last.c, before.st, last.fault,
                          last.second);
  }

  // ---------- The version table over a history ----------

  ghost function UpOrDownEvents<S>(run: Engine<S>, files: Catalog, d: Direction, args: seq<string>, st: State<S>,
                                   fault: Fault): seq<Event> {
    match ParseArguments(d, args)
    case None => []
    case Some(l) =>
      PlanIsAvailable(d, files.Keys, st.versions, l);
      Events(run, files, d, Plan(d, files.Keys, st.versions, l), st, fault)
  }

  ghost function PerformEvents<S>(run: Engine<S>, kind: DbType, files: Catalog, c: Command, st: State<S>,
                                  fault: Fault, second: Fault): seq<Event> {
    match c
    case UpCommand(args) => UpOrDownEvents(run, files, Up, args, st, fault)
    case DownCommand(args) => UpOrDownEvents(run, files, Down, args, st, fault)
    case RollbackCommand(args) =>
      (match RollbackArguments(args)
       case None => []
       case Some(a) => UpOrDownEvents(run, files, Down, a, st, fault))
    case RedoCommand(args) =>
      if st.versions == {} then []
      else
        var r := UpOrDown(run, files, Down, args, st, fault);
        UpOrDownEvents(run, files, Down, args, st, fault) +
        if !r.ok then [] else UpOrDownEvents(run, files, Up, [VersionText(kind, Max(st.versions))], r.state, second)
  }

  ghost function HistoryEvents<S>(run: Engine<S>, kind: DbType, w: World<S>, actions: seq<Action>): seq<Event>
    decreases |actions|
  {
    if actions == [] then []
    else
      var a := actions[0];
      (if a.Run? then PerformEvents(run, kind, w.files, a.c, w.st, a.fault, a.second) else []) +
      HistoryEvents(run, kind, Act(run, kind, w, a), actions[1..])
  }

  lemma UpOrDownIsStackLike<S>(run: Engine<S>, files: Catalog, d: Direction, args: seq<string>, st: State<S>,
                               fault: Fault)
    ensures var log := UpOrDownEvents(run, files, d, args, st, fault);
      StackLike(st.versions, log) && Play(st.versions, log) == UpOrDown(run, files, d, args, st, fault).state.versions
  {
    var l := ParseArguments(d, args);
    if l.Some? {
      PlanIsAvailable(d, files.Keys, st.versions, l.value);
      PlanReady(d, files.Keys, st.versions, l.value);
      EventsAreStackLike(run, files, d, Plan(d, files.Keys, st.versions, l.value), st, fault);
    }
  }

  lemma PerformIsStackLike<S>(run: Engine<S>, kind: DbType, files: Catalog, c: Command, st: State<S>, fault: Fault,
                              second: Fault)
    ensures var log := PerformEvents(run, kind, files, c, st, fault, second);
      var after := Perform(run, kind, files, c, st, fault, second).state.versions;
      StackLike(st.versions, log) && Play(st.versions, log) == after
  {
    match c
    case UpCommand(args) => UpOrDownIsStackLike(run, files, Up, args, st, fault);
    case DownCommand(args) => UpOrDownIsStackLike(run, files, Down, args, st, fault);
    case RollbackCommand(args) =>
      var a := RollbackArguments(args);
      if a.Some? {
        UpOrDownIsStackLike(run, files, Down, a.value, st, fault);
      }
    case RedoCommand(args) =>
      if st.versions != {} {
        UpOrDownIsStackLike(run, files, Down, args, st, fault);
        var r := UpOrDown(run, files, Down, args, st, fault);
        var first := UpOrDownEvents(run, files, Down, args, st, fault);
        var again := [VersionText(kind, Max(st.versions))];
        UpOrDownIsStackLike(run, files, Up, again, r.state, second);
        PlayConcat(st.versions, first, if !r.ok then [] else UpOrDownEvents(run, files, Up, again, r.state, second));
      }
  }

  /** Over every history, whatever happens to the files, the version table is a stack ordered by version. */
  lemma {:induction false} HistoryIsStackLike<S>(run: Engine<S>, kind: DbType, w: World<S>, actions: seq<Action>)
    ensures var log := HistoryEvents(run, kind, w, actions);
      StackLike(w.st.versions, log) && Play(w.st.versions, log) == History(run, kind, w, actions).st.versions
    decreases |actions|
  {
    if actions != [] {
      var a := actions[0];
      var first := if a.Run? then PerformEvents(run, kind, w.files, a.c, w.st, a.fault, a.second) else [];
      if a.Run? {
        PerformIsStackLike(run, kind, w.files, a.c, w.st, a.fault, a.second);
      }
      HistoryIsStackLike(run, kind, Act(run, kind, w, a), actions[1..]);
      PlayConcat(w.st.versions, first, HistoryEvents(run, kind, Act(run, kind, w, a), actions[1..]));
    }
  }

  /**
    Out-of-order files. In every history, a version below a recorded one enters the table only after
    every recorded version above it has been taken out.
   */
  lemma LateFileWaits<S>(run: Engine<S>, kind: DbType, w: World<S>, actions: seq<Action>, from: nat, k: nat,
                         low: Version)
    requires var log := HistoryEvents(run, kind, w, actions);
      && from <= k < |log| && log[k] == Event(Up, low)
    ensures var log := HistoryEvents(run, kind, w, actions);
      forall high | high in Play(w.st.versions, log[..from]) && high > low ::
        exists i | from <= i < k :: log[i] == Event(Down, high)
  {
    var log := HistoryEvents(run, kind, w, actions);
    HistoryIsStackLike(run, kind, w, actions);
    assert log == log[..from] + log[from..];
    PlayConcat(w.st.versions, log[..from], log[from..]);
    var recorded := Play(w.st.versions, log[..from]);
    forall high | high in recorded && high > low
      ensures exists i | from <= i < k :: log[i] == Event(Down, high)
    {
      HighIsGone(recorded, log[from..], k - from, low, high);
      var j :| 0 <= j < k - from && log[from..][j] == Event(Down, high);
      assert log[from + j] == Event(Down, high);
    }
  }

  lemma {:induction false} HighIsGone(recorded: set<Version>, log: seq<Event>, k: nat, low: Version, high: Version)
    requires StackLike(recorded, log) && k < |log| && log[k] == Event(Up, low)
    requires high in recorded && high > low
    ensures exists i | 0 <= i < k :: log[i] == Event(Down, high)
    decreases k
  {
    if k > 0 && log[0] != Event(Down, high) {
      HighIsGone(After(log[0].d, recorded, log[0].v), log[1..], k - 1, low, high);
      var i :| 0 <= i < k - 1 && log[1..][i] == Event(Down, high);
      assert log[i + 1] == Event(Down, high);
    }
  }

  // ---------- Path independence ----------

  /** The record is all file versions up to a bound. */
  ghost predicate Gapless(avail: set<Version>, recorded: set<Version>) {
    recorded == set v | v in avail && v <= Newest(recorded)
  }

  lemma {:induction false} ExecuteKeepsGapless<S>(run: Engine<S>, files: Catalog, d: Direction, plan: seq<Version>,
                                                  st: State<S>, fault: Fault)
    requires forall v | v in plan :: v in files
    requires Ready(d, files.Keys, st.versions, plan) && Gapless(files.Keys, st.versions)
    ensures Gapless(files.Keys, Execute(run, files, d, plan, st, fault).state.versions)
    decreases |plan|
  {
    if plan != [] {
      var r := Migrate1(run, files[plan[0]], d, plan[0], st, fault);
      if r.ok {
        TakingKeepsGapless(d, files.Keys, st.versions, plan[0]);
        ExecuteKeepsGapless(run, files, d, plan[1..], r.state, fault.Next());
      }
    }
  }

  lemma TakingKeepsGapless(d: Direction, avail: set<Version>, recorded: set<Version>, v: Version)
    requires Gapless(avail, recorded) && MayTake(d, avail, recorded, v)
    ensures Gapless(avail, After(d, recorded, v))
  {
    var next := After(d, recorded, v);
    if d.Up? {
      assert Newest(next) == v;
      forall u | u in avail ensures u in next <==> u <= v {
        assert u in recorded <==> u <= Newest(recorded);
      }
    } else {
      assert Newest(next) < v;
      forall u | u in avail ensures u in next <==> u <= Newest(next) {
        assert u in recorded <==> u <= v;
      }
    }
  }

  lemma UpOrDownKeepsGapless<S>(run: Engine<S>, files: Catalog, d: Direction, args: seq<string>, st: State<S>,
                                fault: Fault)
    requires Gapless(files.Keys, st.versions)
    ensures Gapless(files.Keys, UpOrDown(run, files, d, args, st, fault).state.versions)
  {
    var l := ParseArguments(d, args);
    if l.Some? {
      PlanIsAvailable(d, files.Keys, st.versions, l.value);
      PlanReady(d, files.Keys, st.versions, l.value);
      ExecuteKeepsGapless(run, files, d, Plan(d, files.Keys, st.versions, l.value), st, fault);
    }
  }

  lemma PerformKeepsGapless<S>(run: Engine<S>, kind: DbType, files: Catalog, c: Command, st: State<S>, fault: Fault,
                               second: Fault)
    requires Gapless(files.Keys, st.versions)
    ensures Gapless(files.Keys, Perform(run, kind, files, c, st, fault, second).state.versions)
  {
    match c
    case UpCommand(args) => UpOrDownKeepsGapless(run, files, Up, args, st, fault);
    case DownCommand(args) => UpOrDownKeepsGapless(run, files, Down, args, st, fault);
    case RollbackCommand(args) =>
      var a := RollbackArguments(args);
      if a.Some? {
        UpOrDownKeepsGapless(run, files, Down, a.value, st, fault);
      }
    case RedoCommand(args) =>
      if st.versions != {} {
        UpOrDownKeepsGapless(run, files, Down, args, st, fault);
        var r := UpOrDown(run, files, Down, args, st, fault);
        UpOrDownKeepsGapless(run, files, Up, [VersionText(kind, Max(st.versions))], r.state, second);
      }
  }

  ghost predicate CommandsOnly(actions: seq<Action>) {
    forall i | 0 <= i < |actions| :: actions[i].Run?
  }

  lemma {:induction false} HistoryKeepsGapless<S>(run: Engine<S>, kind: DbType, w: World<S>, actions: seq<Action>)
    requires CommandsOnly(actions) && Gapless(w.files.Keys, w.st.versions)
    ensures var after := History(run, kind, w, actions);
      after.files == w.files && Gapless(w.files.Keys, after.st.versions)
    decreases |actions|
  {
    if actions != [] {
      var a := actions[0];
      PerformKeepsGapless(run, kind, w.files, a.c, w.st, a.fault, a.second);
      assert forall i | 0 <= i < |actions[1..]| :: actions[1..][i] == actions[i + 1];
      HistoryKeepsGapless(run, kind, Act(run, kind, w, a), actions[1..]);
    }
  }

  lemma {:induction false} CommandsAreLegal<S(!new)>(run: Engine<S>, kind: DbType, w: World<S>, actions: seq<Action>)
    requires CommandsOnly(actions)
    ensures Legal(run, kind, w, actions)
    decreases |actions|
  {
    if actions != [] {
      assert forall i | 0 <= i < |actions[1..]| :: actions[1..][i] == actions[i + 1];
      CommandsAreLegal(run, kind, Act(run, kind, w, actions[0]), actions[1..]);
    }
  }

  /** Where a path over unchanging files ends. */
  ghost function End<S>(run: Engine<S>, kind: DbType, files: Catalog, st: State<S>, path: seq<Action>): State<S> {
    History(run, kind, World(files, files, st), path).st
  }

  /**
    Path independence. Two databases migrated from the same files, each from a record without gaps, and whatever
    commands each of them has seen: if they end at the same newest version, they have the same record
    and the same schema.
   */
  lemma SameNewestSameSchema<S(!new)>(run: Engine<S>, kindA: DbType, kindB: DbType, base: S, files: Catalog,
                                      a: State<S>, b: State<S>, pathA: seq<Action>, pathB: seq<Action>)
    requires Lawful(run, files) && Agrees(run, base, files, a) && Agrees(run, base, files, b)
    requires Gapless(files.Keys, a.versions) && Gapless(files.Keys, b.versions)
    requires CommandsOnly(pathA) && CommandsOnly(pathB) && Atomic(pathA) && Atomic(pathB)
    requires Newest(End(run, kindA, files, a, pathA).versions) == Newest(End(run, kindB, files, b, pathB).versions)
    ensures End(run, kindA, files, a, pathA) == End(run, kindB, files, b, pathB)
  {
    EndOfPath(run, kindA, base, files, a, pathA);
    EndOfPath(run, kindB, base, files, b, pathB);
  }

  lemma EndOfPath<S(!new)>(run: Engine<S>, kind: DbType, base: S, files: Catalog, st: State<S>, path: seq<Action>)
    requires Lawful(run, files) && Agrees(run, base, files, st)
    requires Gapless(files.Keys, st.versions) && CommandsOnly(path) && Atomic(path)
    ensures var end := End(run, kind, files, st, path);
      Agrees(run, base, files, end) && Gapless(files.Keys, end.versions)
  {
    var w := World(files, files, st);
    CommandsAreLegal(run, kind, w, path);
    HistoryKeepsAgreement(run, kind, base, w, path);
    HistoryKeepsGapless(run, kind, w, path);
    var end := History(run, kind, w, path);
    assert forall v | v in end.st.versions :: v in files;
    AgreesLocal(run, base, end.archive, files, end.st);
  }
}
