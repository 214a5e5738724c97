/**
  The tenant database: associations and events, their unique indexes and foreign key, and what the statements
  of the services do to them. A rejected insert leaves the rows alone, but its sequence has moved on.
 */
module Tenants {
  import opened Options

  datatype Association = Association(id: int, acronym: string, host: string, name: string,
                                     railsCreatedAt: int, railsUpdatedAt: int)

  /** Local time in the zone of the associations. */
  datatype Wall = Wall(day: int, second: nat, nanosecond: nat)

  datatype Event = Event(id: int, associationID: int, city: string, discipline: string, name: string, railsID: int,
                         railsCreatedAt: int, railsUpdatedAt: int, startsAt: Wall, state: string)

  datatype Tables = Tables(associations: map<int, Association>, events: seq<Event>,
                           nextAssociation: nat, nextEvent: nat)

  // ---------- Statements ----------

  predicate Conflicts(rows: map<int, Association>, a: Association) {
    a.id in rows || exists k | k in rows ::
      rows[k].acronym == a.acronym || rows[k].host == a.host || rows[k].name == a.name
  }

  /** Inserts a row; an ID of 0 asks for the next one of the sequence. It stays as it was when the row is refused. */
  function InsertAssociation(t: Tables, a: Association): (Tables, Association) {
    var row := if a.id == 0 then a.(id := t.nextAssociation) else a;
    var t' := if a.id == 0 then t.(nextAssociation := t.nextAssociation + 1) else t;
    if Conflicts(t.associations, row) then (t', a)
    else (t'.(associations := t.associations[row.id := row]), row)
  }

  predicate EventConflicts(t: Tables, e: Event) {
    e.associationID !in t.associations || exists i | 0 <= i < |t.events| :: t.events[i].id == e.id
  }

  function InsertEvent(t: Tables, e: Event): Tables {
    var row := if e.id == 0 then e.(id := t.nextEvent) else e;
    var t' := if e.id == 0 then t.(nextEvent := t.nextEvent + 1) else t;
    if EventConflicts(t, row) then t' else t'.(events := t.events + [row])
  }

  lemma SomeElement<T>(s: set<T>) returns (x: T)
    requires s != {}
    ensures x in s
  {
    x :| x in s;
  }

  lemma {:induction false} FindLowest(ids: set<int>) returns (k: int)
    requires ids != {}
    ensures k in ids && forall j | j in ids :: k <= j
  {
    var m := SomeElement(ids);
    var rest := ids - {m};
    k := m;
    if rest != {} {
      var j := FindLowest(rest);
      if j < m {
        k := j;
      }
    }
    forall j | j in ids ensures k <= j {
      if j != m {
        assert j in rest;
      }
    }
  }

  lemma LowestExists(ids: set<int>)
    requires ids != {}
    ensures exists k :: k in ids && forall j | j in ids :: k <= j
  {
    var k := FindLowest(ids);
  }

  ghost function Lowest(ids: set<int>): (k: int)
    requires ids != {}
    ensures k in ids && forall j | j in ids :: k <= j
  {
    LowestExists(ids);
    var k :| k in ids && forall j | j in ids :: k <= j;
    k
  }

  /** `First`: of the rows that match, the one with the lowest ID. */
  ghost function First(rows: map<int, Association>, ids: set<int>): (r: Option<Association>)
    requires ids <= rows.Keys
    ensures r.None? <==> ids == {}
  {
    if ids == {} then None else Some(rows[Lowest(ids)])
  }

  // ---------- Services ----------

  /** A struct condition leaves out the fields that are blank; the ID of the argument is a condition too. */
  predicate MatchesKey(a: Association, r: Association) {
    (a.id == 0 || r.id == a.id) && (a.acronym == "" || r.acronym == a.acronym)
  }

  function KeyMatches(rows: map<int, Association>, a: Association): (ids: set<int>)
    ensures ids <= rows.Keys
  {
    set k | k in rows && MatchesKey(a, rows[k])
  }

  ghost function FirstOrCreate(t: Tables, a: Association): (Tables, Association) {
    var found := First(t.associations, KeyMatches(t.associations, a));
    var current := if found.Some? then found.value else a;
    if current.id == 0 then InsertAssociation(t, current) else (t, current)
  }

  const DEFAULT := Association(0, "CBRA", "0.0.0.0|localhost|cbra.web", "Cascadia Bicycle Racing Association", 0, 0)

  predicate IsDefault(r: Association) {
    r.acronym == DEFAULT.acronym && r.host == DEFAULT.host && r.name == DEFAULT.name
  }

  function DefaultMatches(rows: map<int, Association>): (ids: set<int>)
    ensures ids <= rows.Keys
  {
    set k | k in rows && IsDefault(rows[k])
  }

  ghost function DefaultOrCreateDefault(t: Tables): (Tables, Association) {
    var found := First(t.associations, DefaultMatches(t.associations));
    if found.Some? then (t, found.value) else InsertAssociation(t, DEFAULT)
  }

  /** `matches` is the operator ~* of the database, pattern first. */
  function HostMatches(rows: map<int, Association>, matches: (string, string) -> bool, host: string): (ids: set<int>)
    ensures ids <= rows.Keys
  {
    set k | k in rows && matches(rows[k].host, host)
  }

  ghost function FirstByHost(t: Tables, matches: (string, string) -> bool, host: string): Option<Association> {
    First(t.associations, HostMatches(t.associations, matches, host))
  }

  /** `EventService.Create`: stops at the first event without an association; refused rows are passed over. */
  function CreateEvents(t: Tables, es: seq<Event>): (Tables, bool)
    decreases |es|
  {
    if es == [] then (t, true)
    else if es[0].associationID == 0 then (t, false)
    else CreateEvents(InsertEvent(t, es[0]), es[1..])
  }

  function EventsOf(events: seq<Event>, k: int): seq<Event> {
    if events == [] then []
    else
      EventsOf(events[..|events| - 1], k) +
      if events[|events| - 1].associationID == k then [events[|events| - 1]] else []
  }

  /** Each event of the association is found as often as it is there, and no other. */
  lemma {:induction false} FindsExactly(events: seq<Event>, k: int, e: Event)
    ensures multiset(EventsOf(events, k))[e] == if e.associationID == k then multiset(events)[e] else 0
  {
    if events != [] {
      var front, last := events[..|events| - 1], events[|events| - 1];
      FindsExactly(front, k, e);
      assert events == front + [last];
    }
  }

  // ---------- What the indexes and the foreign key keep ----------

  ghost predicate Consistent(t: Tables) {
    && t.nextAssociation > 0 && t.nextEvent > 0
    && (forall k | k in t.associations :: k != 0 && t.associations[k].id == k)
    && (forall j, k | j in t.associations && k in t.associations && j != k ::
          && t.associations[j].acronym != t.associations[k].acronym
          && t.associations[j].host != t.associations[k].host
          && t.associations[j].name != t.associations[k].name)
    && (forall i | 0 <= i < |t.events| :: t.events[i].id != 0 && t.events[i].associationID in t.associations)
    && (forall i, j | 0 <= i < j < |t.events| :: t.events[i].id != t.events[j].id)
  }

  /** Rows stay as they are, and events keep their order. */
  ghost predicate Grows(t: Tables, t': Tables) {
    && (forall k | k in t.associations :: k in t'.associations && t'.associations[k] == t.associations[k])
    && t.events <= t'.events
    && t.nextAssociation <= t'.nextAssociation && t.nextEvent <= t'.nextEvent
  }

  /** Every ID has come from its sequence. */
  ghost predicate Sequenced(t: Tables) {
    && (forall k | k in t.associations :: 0 < k < t.nextAssociation)
    && (forall i | 0 <= i < |t.events| :: 0 < t.events[i].id < t.nextEvent)
  }

  lemma InsertAssociationKeeps(t: Tables, a: Association)
    requires Consistent(t)
    ensures var (t', r) := InsertAssociation(t, a);
      && Consistent(t') && Grows(t, t') && t'.events == t.events
      && (a.id == 0 && Sequenced(t) ==> Sequenced(t'))
      && (a.id == 0 && r.id != 0 ==>
            r == a.(id := t.nextAssociation) && r.id in t'.associations && t'.associations[r.id] == r)
      && (forall k | k in t'.associations && k !in t.associations :: k == r.id && t'.associations[k] == r)
  {
  }

  /**
    With an ID from the sequence, a row is refused exactly when its acronym, its host or its name is taken;
    the sequence has moved on either way.
   */
  lemma InsertRefused(t: Tables, a: Association)
    requires Consistent(t) && Sequenced(t) && a.id == 0
    ensures var (t', r) := InsertAssociation(t, a);
      && t'.nextAssociation == t.nextAssociation + 1
      && (r == a <==> t'.associations == t.associations)
      && (r == a <==> exists k | k in t.associations ::
            || t.associations[k].acronym == a.acronym
            || t.associations[k].host == a.host
            || t.associations[k].name == a.name)
  {
    var row := a.(id := t.nextAssociation);
    assert row.id !in t.associations;
    assert t.associations[row.id := row][row.id] == row;
  }

  lemma InsertEventKeeps(t: Tables, e: Event)
    requires Consistent(t)
    ensures var t' := InsertEvent(t, e);
      && Consistent(t') && Grows(t, t') && t'.associations == t.associations
      && (e.id == 0 && Sequenced(t) ==> Sequenced(t'))
  {
  }

  lemma {:induction false} CreateEventsKeeps(t: Tables, es: seq<Event>)
    requires Consistent(t)
    ensures var t' := CreateEvents(t, es).0;
      && Consistent(t') && Grows(t, t') && t'.associations == t.associations
      && ((forall i | 0 <= i < |es| :: es[i].id == 0) && Sequenced(t) ==> Sequenced(t'))
    decreases |es|
  {
    if es != [] && es[0].associationID != 0 {
      InsertEventKeeps(t, es[0]);
      CreateEventsKeeps(InsertEvent(t, es[0]), es[1..]);
    }
  }

  /** `EventService.Create` gives up at the first event without an association, and keeps what it has inserted. */
  lemma {:induction false} StopsAtBlank(t: Tables, es: seq<Event>, z: nat)
    requires z < |es| && es[z].associationID == 0
    requires forall i | 0 <= i < z :: es[i].associationID != 0
    ensures CreateEvents(t, es) == (CreateEvents(t, es[..z]).0, false)
    decreases |es|
  {
    if z > 0 {
      assert es[..z][1..] == es[1..][..z - 1];
      StopsAtBlank(InsertEvent(t, es[0]), es[1..], z - 1);
    }
  }

  /** `EventService.Create` reports an error exactly when some event has no association. */
  lemma {:induction false} ReportsBlank(t: Tables, es: seq<Event>)
    ensures CreateEvents(t, es).1 <==> forall i | 0 <= i < |es| :: es[i].associationID != 0
    decreases |es|
  {
    if es != [] && es[0].associationID != 0 {
      ReportsBlank(InsertEvent(t, es[0]), es[1..]);
      assert forall i | 1 <= i < |es| :: es[i] == es[1..][i - 1];
    }
  }

  /** The events of known associations, in order, each under the ID of its place among all. */
  function Accepted(associations: map<int, Association>, first: int, es: seq<Event>): seq<Event>
    decreases |es|
  {
    if es == [] then []
    else
      (if es[0].associationID in associations then [es[0].(id := first)] else []) +
      Accepted(associations, first + 1, es[1..])
  }

  /**
    A refused event does not stop the others: of new events, none of them blank, exactly those of known associations go
    in, in order, while the sequence counts them all.
   */
  lemma {:induction false} RefusedArePassedOver(t: Tables, es: seq<Event>)
    requires Consistent(t) && Sequenced(t)
    requires forall i | 0 <= i < |es| :: es[i].id == 0 && es[i].associationID != 0
    ensures var t' := CreateEvents(t, es).0;
      && t'.events == t.events + Accepted(t.associations, t.nextEvent, es)
      && t'.nextEvent == t.nextEvent + |es|
    decreases |es|
  {
    if es == [] {
      assert t.events + [] == t.events;
    } else {
      var e, t' := es[0], InsertEvent(t, es[0]);
      InsertEventKeeps(t, e);
      NewEventInserted(t, e);
      RefusedArePassedOver(t', es[1..]);
      var now := if e.associationID in t.associations then [e.(id := t.nextEvent)] else [];
      assert t'.events == t.events + now;
      AppendBoth(t.events, now, Accepted(t.associations, t.nextEvent + 1, es[1..]));
    }
  }

  lemma NewEventInserted(t: Tables, e: Event)
    requires Sequenced(t) && e.id == 0
    ensures InsertEvent(t, e).nextEvent == t.nextEvent + 1
    ensures InsertEvent(t, e).events ==
            if e.associationID in t.associations then t.events + [e.(id := t.nextEvent)] else t.events
  {
  }

  lemma AppendBoth(a: seq<Event>, b: seq<Event>, c: seq<Event>)
    ensures (a + b) + c == a + (b + c)
  {
  }
}
