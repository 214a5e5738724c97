/**
  What a command of the migration runner does, without its loops: which versions it takes on, in which
  order, and what each migration does to the version table and to the schema.
 */
module Plans {
  import opened Options
  import opened Orders
  import opened Sections
  import opened Arguments

  /** A migration file as the runner sees it: its two sections, each absent when empty or missing. */
  datatype File = File(up: Option<Script>, down: Option<Script>)

  type Catalog = map<Version, File>

  /** What a script does to a schema; nothing when the database refuses it, and then the schema is as before. */
  type Engine<!S> = (Script, S) -> Option<S>

  datatype State<S> = State(versions: set<Version>, schema: S)

  datatype Result<S> = Result(state: State<S>, ok: bool)

  /**
    The first trouble a command meets from outside: before the section of its n-th migration has taken
    effect, or between the section and the version row. The command ends there.
   */
  datatype Fault = NoFault | BeforeSection(n: nat) | BeforeRow(n: nat) {
    function Next(): Fault {
      match this
      case NoFault => NoFault
      case BeforeSection(n) => if n == 0 then this else BeforeSection(n - 1)
      case BeforeRow(n) => if n == 0 then this else BeforeRow(n - 1)
    }
  }

  function SectionOf(d: Direction, f: File): Option<Script> {
    if d.Up? then f.up else f.down
  }

  /** The version row: an insert that the primary key can refuse, or a delete. */
  function ChangeRow(d: Direction, versions: set<Version>, v: Version): Option<set<Version>> {
    if d.Down? then Some(versions - {v})
    else if v in versions then None
    else Some(versions + {v})
  }

  /** One round of the loop of `migrate`: the section and the version row are piped to the client. */
  function Migrate1<S>(run: Engine<S>, f: File, d: Direction, v: Version, st: State<S>, fault: Fault): Result<S> {
    match SectionOf(d, f)
    case None => Result(st, false)
    case Some(script) =>
      if fault == BeforeSection(0) then Result(st, false)
      else
        match run(script, st.schema)
        case None => Result(st, false)
        case Some(schema) =>
          var row := if fault == BeforeRow(0) then None else ChangeRow(d, st.versions, v);
          match row
          case None => Result(State(st.versions, schema), false)
          case Some(versions) => Result(State(versions, schema), true)
  }

  /** The migrations of a plan one after the other, up to the first that fails. */
  function Execute<S>(run: Engine<S>, files: Catalog, d: Direction, plan: seq<Version>, st: State<S>,
                      fault: Fault): Result<S>
    requires forall v | v in plan :: v in files
    decreases |plan|
  {
    if plan == [] then Result(st, true)
    else
      var r := Migrate1(run, files[plan[0]], d, plan[0], st, fault);
      if !r.ok then r else Execute(run, files, d, plan[1..], r.state, fault.Next())
  }

  predicate NotBeyond(till: Option<nat>, v: Version) {
    till.None? || v <= till.value
  }

  predicate NotBelow(till: Option<nat>, v: Version) {
    till.None? || v >= till.value
  }

  /** `up`: the first of the files newer than everything recorded, not beyond the stop version, oldest first. */
  ghost function UpPlan(avail: set<Version>, recorded: set<Version>, l: Limits): seq<Version> {
    FirstN(l.steps, Asc(set v | v in avail && v > Newest(recorded) && NotBeyond(l.till, v)))
  }

  /** The recorded versions from the stop version on, as far down as no file is missing. */
  ghost function Revertible(avail: set<Version>, recorded: set<Version>, till: Option<nat>): set<Version> {
    set v | v in recorded && NotBelow(till, v) && forall u | u in recorded && u >= v :: u in avail
  }

  /** `down`: the first of these, newest first. */
  ghost function DownPlan(avail: set<Version>, recorded: set<Version>, l: Limits): seq<Version> {
    FirstN(l.steps, Desc(Revertible(avail, recorded, l.till)))
  }

  ghost function Plan(d: Direction, avail: set<Version>, recorded: set<Version>, l: Limits): seq<Version> {
    if d.Up? then UpPlan(avail, recorded, l) else DownPlan(avail, recorded, l)
  }

  lemma PlanIsAvailable(d: Direction, avail: set<Version>, recorded: set<Version>, l: Limits)
    ensures forall v | v in Plan(d, avail, recorded, l) :: v in avail
  {
    var up := set v | v in avail && v > Newest(recorded) && NotBeyond(l.till, v);
    var down := Revertible(avail, recorded, l.till);
    AscFacts(up);
    DescFacts(down);
    forall v | v in Plan(d, avail, recorded, l) ensures v in avail {
      if d.Up? {
        assert v in Elems(Asc(up));
      } else {
        assert v in Elems(Desc(down));
      }
    }
  }

  /** `migrate` after its arguments have been read. */
  ghost function Migrate<S>(run: Engine<S>, files: Catalog, d: Direction, l: Limits, st: State<S>,
                            fault: Fault): Result<S> {
    PlanIsAvailable(d, files.Keys, st.versions, l);
    Execute(run, files, d, Plan(d, files.Keys, st.versions, l), st, fault)
  }

  ghost function UpOrDown<S>(run: Engine<S>, files: Catalog, d: Direction, args: seq<string>, st: State<S>,
                             fault: Fault): Result<S> {
    match ParseArguments(d, args)
    case None => Result(st, false)
    case Some(l) => Migrate(run, files, d, l, st, fault)
  }

  datatype Command = UpCommand(args: seq<string>) | DownCommand(args: seq<string>)
                   | RollbackCommand(args: seq<string>) | RedoCommand(args: seq<string>)

  /**
    One run of the tool. `redo` remembers the newest version, takes `down` through, and gives `up`
    the version text as stop version; `second` is the fault of that second half.
   */
  ghost function Perform<S>(run: Engine<S>, kind: DbType, files: Catalog, c: Command, st: State<S>,
                            fault: Fault, second: Fault): Result<S> {
    match c
    case UpCommand(args) => UpOrDown(run, files, Up, args, st, fault)
    case DownCommand(args) => UpOrDown(run, files, Down, args, st, fault)
    case RollbackCommand(args) =>
      (match RollbackArguments(args)
       case None => Result(st, false)
       case Some(a) => UpOrDown(run, files, Down, a, st, fault))
    case RedoCommand(args) =>
      if st.versions == {} then Result(st, true)
      else
        var r := UpOrDown(run, files, Down, args, st, fault);
        if !r.ok then r
        else UpOrDown(run, files, Up, [VersionText(kind, Max(st.versions))], r.state, second)
  }
}
