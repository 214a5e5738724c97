/** The services over a shared database: Go methods that insert rows and fill structs, statement by statement. */
module Services {
  import opened Options
  import opened Tenants
  import opened Copying

  class Database {
    var associations: map<int, Association>
    var events: seq<Event>
    var nextAssociation: nat
    var nextEvent: nat

    /** An empty database; both sequences start with 1. */
    constructor ()
      ensures Current() == Tenants.Tables(map[], [], 1, 1) && Consistent(Current()) && Sequenced(Current())
    {
      associations, events, nextAssociation, nextEvent := map[], [], 1, 1;
    }

    ghost function Current(): Tables
      reads this
    {
      Tenants.Tables(associations, events, nextAssociation, nextEvent)
    }

    /** gorm's Create for an association: the sequence is asked first, the indexes after. */
    method CreateAssociation(a: Association) returns (r: Association)
      modifies this
      ensures (Current(), r) == InsertAssociation(old(Current()), a)
    {
      var row := a;
      if a.id == 0 {
        row := a.(id := nextAssociation);
        nextAssociation := nextAssociation + 1;
      }
      if Conflicts(associations, row) {
        return a;
      }
      associations := associations[row.id := row];
      return row;
    }

    method CreateEvent(e: Event)
      modifies this
      ensures Current() == InsertEvent(old(Current()), e)
    {
      var row := e;
      if e.id == 0 {
        row := e.(id := nextEvent);
        nextEvent := nextEvent + 1;
      }
      if row.associationID !in associations || exists i | 0 <= i < |events| :: events[i].id == row.id {
        return;
      }
      events := events + [row];
    }

    /** gorm's First: the matching row with the lowest ID, read into `into`. */
    method First(ids: set<int>, into: Association) returns (r: Association, found: bool)
      requires ids <= associations.Keys
      ensures found <==> Tenants.First(associations, ids).Some?
      ensures r == if found then Tenants.First(associations, ids).value else into
    {
      if ids == {} {
        return into, false;
      }
      LowestExists(ids);
      var k :| k in ids && forall j | j in ids :: k <= j;
      return associations[k], true;
    }
  }

  class AssociationService {
    const db: Database

    constructor (db: Database)
      ensures this.db == db
    {
      this.db := db;
    }

    method Create(association: Association) returns (r: Association)
      modifies db
      ensures (db.Current(), r) == InsertAssociation(old(db.Current()), association)
    {
      r := db.CreateAssociation(association);
    }

    method CreateDefault() returns (r: Association)
      modifies db
      ensures (db.Current(), r) == InsertAssociation(old(db.Current()), DEFAULT)
      ensures r.acronym == "CBRA" && r.host == "0.0.0.0|localhost|cbra.web"
      ensures r.name == "Cascadia Bicycle Racing Association"
    {
      r := Create(DEFAULT);
    }

    method DefaultOrCreateDefault() returns (r: Association)
      modifies db
      ensures (db.Current(), r) == Tenants.DefaultOrCreateDefault(old(db.Current()))
      ensures r.acronym == "CBRA" && r.host == "0.0.0.0|localhost|cbra.web"
      ensures r.name == "Cascadia Bicycle Racing Association"
    {
      var found;
      r, found := db.First(DefaultMatches(db.associations), DEFAULT);
      if !found {
        r := db.CreateAssociation(r);
      }
    }

    /** The association of a host, or an error. */
    method FirstByHost(matches: (string, string) -> bool, host: string) returns (r: Option<Association>)
      ensures r == Tenants.FirstByHost(db.Current(), matches, host)
    {
      var row, found := db.First(HostMatches(db.associations, matches, host), Association(0, "", "", "", 0, 0));
      r := if found then Some(row) else None;
    }

    method FirstOrCreate(association: Association) returns (r: Association)
      modifies db
      ensures (db.Current(), r) == Tenants.FirstOrCreate(old(db.Current()), association)
    {
      var found;
      r, found := db.First(KeyMatches(db.associations, association), association);
      if r.id == 0 {
        r := Create(r);
      }
    }
  }

  class EventService {
    const db: Database

    constructor (db: Database)
      ensures this.db == db
    {
      this.db := db;
    }

    method Create(events: seq<Event>) returns (ok: bool)
      modifies db
      ensures (db.Current(), ok) == CreateEvents(old(db.Current()), events)
    {
      var i := 0;
      while i < |events|
        invariant 0 <= i <= |events|
        invariant CreateEvents(db.Current(), events[i..]) == CreateEvents(old(db.Current()), events)
      {
        assert events[i..][1..] == events[i + 1..];
        if events[i].associationID == 0 {
          return false;
        }
        db.CreateEvent(events[i]);
        i := i + 1;
      }
      return true;
    }

    method Find(association: Association) returns (found: seq<Event>)
      ensures found == EventsOf(db.events, association.id)
    {
      found := [];
      var i := 0;
      while i < |db.events|
        invariant 0 <= i <= |db.events|
        invariant found == EventsOf(db.events[..i], association.id)
      {
        assert db.events[..i + 1][..i] == db.events[..i];
        if db.events[i].associationID == association.id {
          found := found + [db.events[i]];
        }
        i := i + 1;
      }
      assert db.events[..i] == db.events;
    }
  }

  class RacingAssociationService {
    const associationService: AssociationService
    const eventService: EventService

    constructor (associationService: AssociationService, eventService: EventService)
      ensures this.associationService == associationService && this.eventService == eventService
    {
      this.associationService, this.eventService := associationService, eventService;
    }

    /** `Copy`, given what the Rails database and the time-zone database answer. */
    method Copy(source: Source) returns (ok: bool)
      requires associationService.db == eventService.db
      modifies associationService.db
      ensures (associationService.db.Current(), ok) == Copying.Copy(old(associationService.db.Current()), source)
    {
      if source.association.None? {
        return false;
      }
      var racingAssociation := source.association.value;
      var association := NewTenant(source.acronym, racingAssociation);
      association := associationService.FirstOrCreate(association);
      var n := |source.events|;
      var blank := Event(0, 0, "", "", "", 0, 0, 0, Wall(0, 0, 0), "");
      var events := new Event[n](_ => blank);
      var i := 0;
      while i < n
        invariant 0 <= i <= n && (i > 0 ==> source.zone)
        modifies events
        invariant forall j | 0 <= j < i :: events[j] == NewEvent(association.id, source.events[j])
      {
        if !source.zone {
          return false;
        }
        events[i] := NewEvent(association.id, source.events[i]);
        i := i + 1;
      }
      assert events[..] == NewEvents(association.id, source.events);
      var _ := eventService.Create(events[..]);
      return true;
    }
  }
}
