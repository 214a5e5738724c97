/** Copying the events of a Racing on Rails association into its tenant. */
module Copying {
  import opened Options
  import opened Tenants

  /** A point of time as Go takes it apart: a day and a time of day. */
  datatype RawDate = RawDate(day: int, hour: nat, minute: nat, second: nat, nanosecond: nat)

  type Date = d: RawDate | d.hour < 24 && d.minute < 60 && d.second < 60 && d.nanosecond < 1_000_000_000
    witness RawDate(0, 0, 0, 0, 0)

  datatype RailsEvent = RailsEvent(city: string, createdAt: int, date: Date, discipline: string, id: int,
                                   name: string, state: string, updatedAt: int)

  datatype RacingAssociation = RacingAssociation(createdAt: int, id: int, name: string, shortName: string,
                                                 updatedAt: int)

  /**
    What one call of `Copy` sees: the acronym asked for, the events and the association of the Rails database,
    and whether the time zone could be loaded.
   */
  datatype Source = Source(acronym: string, events: seq<RailsEvent>, association: Option<RacingAssociation>, zone: bool)

  /** `time.Date`: carries seconds beyond the day into the day. */
  function TimeDate(day: int, hour: nat, minute: nat, second: nat, nanosecond: nat): Wall {
    var s := hour * 3600 + minute * 60 + second;
    Wall(day + s / 86400, s % 86400, nanosecond)
  }

  /** `ToAssociationTimeZone`: passes the minute as the hour, and the hour as the minute. */
  function ToAssociationTimeZone(d: Date): Wall {
    TimeDate(d.day, d.minute, d.hour, d.second, d.nanosecond)
  }

  /** The same local time in the other zone, as the comment on the function promises. */
  function SameWallClock(d: Date): Wall {
    TimeDate(d.day, d.hour, d.minute, d.second, d.nanosecond)
  }

  function SecondsOf(w: Wall): int {
    w.day * 86400 + w.second
  }

  /**
    Which time a date becomes: its own day, with the minutes counted as hours and the hours as minutes. More than 23
    minutes reach into the days that follow.
   */
  lemma DateBecomes(d: Date)
    ensures var w := ToAssociationTimeZone(d);
      && SecondsOf(w) == d.day * 86400 + d.minute * 3600 + d.hour * 60 + d.second
      && w.second < 86400 && w.nanosecond == d.nanosecond
      && (w.day == d.day <==> d.minute < 24)
      && (d.hour == d.minute == d.second == 0 ==> w == Wall(d.day, 0, d.nanosecond))
  {
  }

  /** The wall clock is kept exactly when hour equals minute; else it is off by 59 minutes for each step between. */
  lemma WallClockKept(d: Date)
    ensures ToAssociationTimeZone(d) == SameWallClock(d) <==> d.hour == d.minute
    ensures SecondsOf(ToAssociationTimeZone(d)) - SecondsOf(SameWallClock(d)) == 3540 * (d.minute - d.hour)
  {
  }

  /** Concretely, nine in the morning becomes nine minutes past midnight. */
  lemma NineInTheMorning(day: int)
    ensures ToAssociationTimeZone(RawDate(day, 9, 0, 0, 0)) == Wall(day, 540, 0)
         != SameWallClock(RawDate(day, 9, 0, 0, 0))
  {
  }

  function LowerChar(c: char): char {
    if 'A' <= c <= 'Z' then (c as int + 32) as char else c
  }

  function Lower(s: string): (l: string)
    ensures |l| == |s| && forall i | 0 <= i < |s| :: l[i] == LowerChar(s[i])
  {
    seq(|s|, i requires 0 <= i < |s| => LowerChar(s[i]))
  }

  /** The same character, or the same letter in the other case. */
  predicate SameLetter(c: char, d: char) {
    || c == d
    || ('A' <= c <= 'Z' && d as int - c as int == 32)
    || ('A' <= d <= 'Z' && c as int - d as int == 32)
  }

  predicate SameButCase(a: string, b: string) {
    |a| == |b| && forall i | 0 <= i < |a| :: SameLetter(a[i], b[i])
  }

  predicate HasCapital(s: string) {
    exists i | 0 <= i < |s| :: 'A' <= s[i] <= 'Z'
  }

  lemma SameWhenLowered(c: char, d: char)
    ensures LowerChar(c) == LowerChar(d) <==> SameLetter(c, d)
    ensures !('A' <= LowerChar(c) <= 'Z') && SameLetter(LowerChar(c), c)
  {
  }

  /** A text in lower case differs from the text in case only, and has no capitals. That determines it. */
  lemma LowerMeans(s: string, l: string)
    ensures l == Lower(s) <==> SameButCase(l, s) && !HasCapital(l)
  {
    var low := Lower(s);
    forall i | 0 <= i < |s| ensures SameLetter(low[i], s[i]) && !('A' <= low[i] <= 'Z') {
      SameWhenLowered(s[i], s[i]);
    }
    if SameButCase(l, s) && !HasCapital(l) {
      forall i | 0 <= i < |s| ensures l[i] == low[i] {
        assert SameLetter(l[i], s[i]) && !('A' <= l[i] <= 'Z');
        SameWhenLowered(l[i], s[i]);
      }
    }
  }

  function HostPattern(shortName: string): string {
    "0.0.0.0|localhost|" + Lower(shortName) + ".web"
  }

  function NewTenant(acronym: string, r: RacingAssociation): Association {
    Association(0, acronym, HostPattern(r.shortName), r.shortName, r.createdAt, r.updatedAt)
  }

  /** The host of a new tenant: two fixed parts, and the short name in lower case. */
  lemma TenantHost(acronym: string, r: RacingAssociation)
    ensures var host, n := NewTenant(acronym, r).host, |r.shortName|;
      && |host| == n + 22 && host[..18] == "0.0.0.0|localhost|" && host[n + 18..] == ".web"
      && SameButCase(host[18..n + 18], r.shortName) && !HasCapital(host)
      && (!HasCapital(r.shortName) ==> host[18..n + 18] == r.shortName)
  {
    var host, n, own := NewTenant(acronym, r).host, |r.shortName|, Lower(r.shortName);
    LowerMeans(r.shortName, own);
    LowerMeans(r.shortName, r.shortName);
    assert host[..18] == "0.0.0.0|localhost|" && host[18..n + 18] == own && host[n + 18..] == ".web";
    forall i | 0 <= i < |host| ensures !('A' <= host[i] <= 'Z') {
      assert 18 <= i < n + 18 ==> host[i] == own[i - 18];
    }
    assert forall i | 0 <= i < n :: SameLetter(r.shortName[i], r.shortName[i]);
  }

  /** Short names that differ in case only make the same host. */
  lemma HostIgnoresCase(acronym: string, other: string, r: RacingAssociation, q: RacingAssociation)
    ensures NewTenant(acronym, r).host == NewTenant(other, q).host <==> SameButCase(r.shortName, q.shortName)
  {
    var a, b := Lower(r.shortName), Lower(q.shortName);
    var x, y := HostPattern(r.shortName), HostPattern(q.shortName);
    assert x[18..|x| - 4] == a && y[18..|y| - 4] == b;
    forall i | 0 <= i < |a| && i < |b| ensures a[i] == b[i] <==> SameLetter(r.shortName[i], q.shortName[i]) {
      SameWhenLowered(r.shortName[i], q.shortName[i]);
    }
  }

  function NewEvent(tenant: int, e: RailsEvent): Event {
    Event(0, tenant, e.city, e.discipline, e.name, e.id, e.createdAt, e.updatedAt, ToAssociationTimeZone(e.date),
          e.state)
  }

  function NewEvents(tenant: int, es: seq<RailsEvent>): (out: seq<Event>)
    ensures |out| == |es| && forall i | 0 <= i < |es| :: out[i] == NewEvent(tenant, es[i])
  {
    seq(|es|, i requires 0 <= i < |es| => NewEvent(tenant, es[i]))
  }

  /** The tables after a call, and whether it returned without an error. */
  ghost function Copy(t: Tables, s: Source): (Tables, bool) {
    match s.association
    case None => (t, false)
    case Some(r) =>
      var (t', tenant) := FirstOrCreate(t, NewTenant(s.acronym, r));
      if s.events != [] && !s.zone then (t', false)
      else (CreateEvents(t', NewEvents(tenant.id, s.events)).0, true)
  }

  /** The tenant ID a call gets hold of; 0 when it gets none. */
  ghost function Obtained(t: Tables, s: Source): int {
    match s.association
    case None => 0
    case Some(r) => FirstOrCreate(t, NewTenant(s.acronym, r)).1.id
  }

  // ---------- The rows of one call ----------

  /** Events with consecutive IDs. */
  function Numbered(first: int, es: seq<Event>): (rows: seq<Event>)
    ensures |rows| == |es| && forall i | 0 <= i < |es| :: rows[i] == es[i].(id := first + i)
    decreases |es|
  {
    if es == [] then [] else [es[0].(id := first)] + Numbered(first + 1, es[1..])
  }

  /** The rows a call adds: the source events in order, with consecutive IDs. */
  function Rows(first: int, tenant: int, es: seq<RailsEvent>): (rows: seq<Event>)
    ensures |rows| == |es| && forall i | 0 <= i < |es| :: rows[i] == NewEvent(tenant, es[i]).(id := first + i)
  {
    Numbered(first, NewEvents(tenant, es))
  }

  /** The next ID is free, and the tenant exists. */
  ghost predicate Open(t: Tables, tenant: int) {
    && tenant != 0 && tenant in t.associations && t.nextEvent > 0
    && forall i | 0 <= i < |t.events| :: t.events[i].id < t.nextEvent
  }

  lemma OneGoesIn(t: Tables, tenant: int, e: Event)
    requires Open(t, tenant) && e.id == 0 && e.associationID == tenant
    ensures var t' := InsertEvent(t, e);
      && t' == t.(events := t.events + [e.(id := t.nextEvent)], nextEvent := t.nextEvent + 1)
      && Open(t', tenant)
  {
  }

  /** Events of an existing association all go in, one after the other. */
  lemma {:induction false} AllGoIn(t: Tables, tenant: int, es: seq<Event>)
    requires Open(t, tenant) && forall i | 0 <= i < |es| :: es[i].id == 0 && es[i].associationID == tenant
    ensures CreateEvents(t, es) ==
            (t.(events := t.events + Numbered(t.nextEvent, es), nextEvent := t.nextEvent + |es|), true)
    decreases |es|
  {
    if es == [] {
      assert t.events + [] == t.events;
    } else {
      var t' := InsertEvent(t, es[0]);
      OneGoesIn(t, tenant, es[0]);
      AllGoIn(t', tenant, es[1..]);
      AppendOne(t.events, es[0].(id := t.nextEvent), Numbered(t.nextEvent + 1, es[1..]));
    }
  }

  lemma AppendOne(events: seq<Event>, e: Event, rest: seq<Event>)
    ensures events + ([e] + rest) == events + [e] + rest
  {
  }

  lemma {:induction false} EventsOfConcat(a: seq<Event>, b: seq<Event>, k: int)
    ensures EventsOf(a + b, k) == EventsOf(a, k) + EventsOf(b, k)
  {
    if b == [] {
      assert a + b == a;
    } else {
      assert (a + b)[..|a + b| - 1] == a + b[..|b| - 1];
      EventsOfConcat(a, b[..|b| - 1], k);
    }
  }

  lemma {:induction false} EventsOfOne(b: seq<Event>, tenant: int, k: int)
    requires forall i | 0 <= i < |b| :: b[i].associationID == tenant
    ensures EventsOf(b, k) == if k == tenant then b else []
  {
    if b != [] {
      EventsOfOne(b[..|b| - 1], tenant, k);
    }
  }

  lemma FirstOrCreateKeeps(t: Tables, a: Association)
    requires Consistent(t)
    ensures var (t', r) := FirstOrCreate(t, a);
      && Consistent(t') && Grows(t, t') && t'.events == t.events && t'.nextEvent == t.nextEvent
      && (a.id == 0 && Sequenced(t) ==> Sequenced(t'))
      && (a.id == 0 && r.id != 0 ==> r.id in t'.associations && t'.associations[r.id] == r)
      && (forall k | k in t'.associations && k !in t.associations :: k == r.id && t'.associations[k] == r)
  {
    InsertAssociationKeeps(t, a);
  }

  lemma CopyKeeps(t: Tables, s: Source)
    requires Consistent(t)
    ensures var t' := Copy(t, s).0;
      Consistent(t') && Grows(t, t') && (Sequenced(t) ==> Sequenced(t'))
  {
    if s.association.Some? {
      var a := NewTenant(s.acronym, s.association.value);
      FirstOrCreateKeeps(t, a);
      var (t', r) := FirstOrCreate(t, a);
      CreateEventsKeeps(t', NewEvents(r.id, s.events));
    }
  }

  /** What a call adds to the events of an association. */
  ghost function Added(t: Tables, s: Source, k: int): seq<Event> {
    if k != 0 && Obtained(t, s) == k && s.zone then Rows(t.nextEvent, k, s.events) else []
  }

  lemma BlankTenantGainsNothing(t: Tables, es: seq<RailsEvent>)
    ensures CreateEvents(t, NewEvents(0, es)).0 == t
  {
    var all := NewEvents(0, es);
    assert all == [] || all[0].associationID == 0;
  }

  lemma TenantGains(t: Tables, tenant: int, es: seq<RailsEvent>, k: int)
    requires Open(t, tenant)
    ensures EventsOf(CreateEvents(t, NewEvents(tenant, es)).0.events, k) ==
            EventsOf(t.events, k) + if k == tenant then Rows(t.nextEvent, tenant, es) else []
  {
    var rows := Rows(t.nextEvent, tenant, es);
    AllGoIn(t, tenant, NewEvents(tenant, es));
    EventsOfConcat(t.events, rows, k);
    EventsOfOne(rows, tenant, k);
  }

  /**
    Conservation and isolation of one call: the tenant it obtained gains exactly the source events, field by field
    and in order; nobody else gains or loses any.
   */
  lemma CopyAdds(t: Tables, s: Source, k: int)
    requires Consistent(t) && Sequenced(t)
    ensures EventsOf(Copy(t, s).0.events, k) == EventsOf(t.events, k) + Added(t, s, k)
  {
    if s.association.Some? {
      var a := NewTenant(s.acronym, s.association.value);
      FirstOrCreateKeeps(t, a);
      var (t', r) := FirstOrCreate(t, a);
      if r.id != 0 {
        TenantGains(t', r.id, s.events, k);
      } else {
        BlankTenantGainsNothing(t', s.events);
      }
    }
  }

  /** What is added, field by field: the i-th row is the i-th source event of the tenant. */
  lemma AddedFieldByField(t: Tables, s: Source, k: int, i: nat)
    requires i < |Added(t, s, k)|
    ensures i < |s.events| && var row, e := Added(t, s, k)[i], s.events[i];
      && row.associationID == k && row.id == t.nextEvent + i && row.railsID == e.id
      && row.city == e.city && row.state == e.state && row.discipline == e.discipline && row.name == e.name
      && row.railsCreatedAt == e.createdAt && row.railsUpdatedAt == e.updatedAt
      && SecondsOf(row.startsAt) == e.date.day * 86400 + e.date.minute * 3600 + e.date.hour * 60 + e.date.second
      && (e.date == RawDate(e.date.day, 0, 0, 0, 0) ==> row.startsAt == Wall(e.date.day, 0, 0))
      && (row.startsAt == SameWallClock(e.date) <==> e.date.hour == e.date.minute)
  {
    DateBecomes(s.events[i].date);
    WallClockKept(s.events[i].date);
  }

  /**
    Which calls report an error, whatever they have written: those that do not find the Rails association, and those
    with events and no time zone.
   */
  lemma CopyReports(t: Tables, s: Source)
    ensures Copy(t, s).1 <==> s.association.Some? && (s.zone || s.events == [])
    ensures s.association.None? ==> Copy(t, s).0 == t
    ensures s.association.Some? && !Copy(t, s).1 ==>
            Copy(t, s).0 == FirstOrCreate(t, NewTenant(s.acronym, s.association.value)).0
  {
  }

  /** The new tenant of a call cannot be inserted: it finds no row of the acronym, and the host or the name is taken. */
  ghost predicate IsShutOut(t: Tables, s: Source)
    requires s.association.Some?
  {
    var a := NewTenant(s.acronym, s.association.value);
    && (forall k | k in t.associations :: !MatchesKey(a, t.associations[k]))
    && (exists k | k in t.associations :: t.associations[k].host == a.host || t.associations[k].name == a.name)
  }

  /**
    A call gets no tenant exactly when the Rails association is not found or its tenant is shut out; and it then
    reports no error exactly when it was found and there is a time zone or no event to convert.
   */
  lemma NothingObtained(t: Tables, s: Source)
    requires Consistent(t) && Sequenced(t)
    ensures Obtained(t, s) == 0 <==> s.association.None? || IsShutOut(t, s)
    ensures Obtained(t, s) == 0 && Copy(t, s).1 <==>
            s.association.Some? && IsShutOut(t, s) && (s.zone || s.events == [])
    ensures Obtained(t, s) == 0 ==> Copy(t, s).0.events == t.events
  {
    if s.association.Some? {
      var a := NewTenant(s.acronym, s.association.value);
      var ids := KeyMatches(t.associations, a);
      FirstOrCreateKeeps(t, a);
      BlankTenantGainsNothing(FirstOrCreate(t, a).0, s.events);
      if ids == {} {
        forall k | k in t.associations ensures !MatchesKey(a, t.associations[k]) {
          assert k !in ids;
        }
        assert !exists k | k in t.associations :: t.associations[k].acronym == a.acronym;
      } else {
        var k := Lowest(ids);
        assert k in t.associations && MatchesKey(a, t.associations[k]);
      }
    }
  }
}
