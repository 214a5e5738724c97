/** What holds over every sequence of calls: the indexes, the identity of tenants, their hosts and their events. */
module TenantRuns {
  import opened Options
  import opened Tenants
  import opened Copying
  import opened Hosts

  datatype Call = CreateCall(a: Association) | FirstOrCreateCall(a: Association) | DefaultCall
                | EventsCall(es: seq<Event>) | CopyCall(s: Source)

  ghost function Do(t: Tables, c: Call): Tables {
    match c
    case CreateCall(a) => InsertAssociation(t, a).0
    case FirstOrCreateCall(a) => FirstOrCreate(t, a).0
    case DefaultCall => DefaultOrCreateDefault(t).0
    case EventsCall(es) => CreateEvents(t, es).0
    case CopyCall(s) => Copy(t, s).0
  }

  ghost function Run(t: Tables, calls: seq<Call>): Tables
    decreases |calls|
  {
    if calls == [] then t else Run(Do(t, calls[0]), calls[1..])
  }

  /** No caller brings IDs of its own, as none in the program does. */
  predicate Unnumbered(c: Call) {
    match c
    case CreateCall(a) => a.id == 0
    case FirstOrCreateCall(a) => a.id == 0
    case DefaultCall => true
    case EventsCall(es) => forall i | 0 <= i < |es| :: es[i].id == 0
    case CopyCall(_) => true
  }

  predicate AllUnnumbered(calls: seq<Call>) {
    forall i | 0 <= i < |calls| :: Unnumbered(calls[i])
  }

  lemma DoKeeps(t: Tables, c: Call)
    requires Consistent(t)
    ensures Consistent(Do(t, c)) && Grows(t, Do(t, c))
    ensures Unnumbered(c) && Sequenced(t) ==> Sequenced(Do(t, c))
  {
    match c
    case CreateCall(a) => InsertAssociationKeeps(t, a);
    case FirstOrCreateCall(a) => FirstOrCreateKeeps(t, a);
    case DefaultCall => InsertAssociationKeeps(t, DEFAULT);
    case EventsCall(es) => CreateEventsKeeps(t, es);
    case CopyCall(s) => CopyKeeps(t, s);
  }

  lemma GrowsTransitively(a: Tables, b: Tables, c: Tables)
    requires Grows(a, b) && Grows(b, c)
    ensures Grows(a, c)
  {
  }

  /**
    The store invariant. Whatever is called, with whatever arguments and however many inserts are refused:
    acronym, host and name stay unique, every event points at an association, and no row is lost or changed.
   */
  lemma {:induction false} RunKeeps(t: Tables, calls: seq<Call>)
    requires Consistent(t)
    ensures Consistent(Run(t, calls)) && Grows(t, Run(t, calls))
    ensures AllUnnumbered(calls) && Sequenced(t) ==> Sequenced(Run(t, calls))
    decreases |calls|
  {
    if calls != [] {
      DoKeeps(t, calls[0]);
      assert AllUnnumbered(calls) ==> AllUnnumbered(calls[1..]);
      RunKeeps(Do(t, calls[0]), calls[1..]);
      GrowsTransitively(t, Do(t, calls[0]), Run(t, calls));
    }
  }

  // ---------- One association per acronym ----------

  /** With an acronym to look for, `FirstOrCreate` finds the row of the acronym and nothing else. */
  lemma FindsItsRow(t: Tables, k: int, b: Association)
    requires Consistent(t) && k in t.associations
    requires (b.id == 0 || b.id == k) && b.acronym != "" && t.associations[k].acronym == b.acronym
    ensures FirstOrCreate(t, b) == (t, t.associations[k])
  {
    var ids := KeyMatches(t.associations, b);
    assert k in ids;
    assert MatchesKey(b, t.associations[Lowest(ids)]);
  }

  /**
    `FirstOrCreate` is a map from acronyms to IDs: once it has given an ID for an acronym, it gives the same row
    for ever after, to a new argument or to the one it has filled, whatever is called in between, and never makes
    a second one.
   */
  lemma SameAcronymSameTenant(t: Tables, a: Association, calls: seq<Call>, b: Association)
    requires Consistent(t) && a.id == 0 && a.acronym == b.acronym && a.acronym != ""
    requires var r := FirstOrCreate(t, a).1; r.id != 0 && (b.id == 0 || b.id == r.id)
    ensures var (t', r) := FirstOrCreate(t, a);
      var later := Run(t', calls);
      r.acronym == a.acronym && FirstOrCreate(later, b) == (later, r)
  {
    FirstOrCreateKeeps(t, a);
    var (t', r) := FirstOrCreate(t, a);
    var ids := KeyMatches(t.associations, a);
    if ids != {} {
      assert MatchesKey(a, t.associations[Lowest(ids)]);
    }
    RunKeeps(t', calls);
    FindsItsRow(Run(t', calls), r.id, b);
  }

  /**
    The row `FirstOrCreate` hands back has the acronym asked for, except for a blank one: then the row of the ID is
    taken if the argument has one, and the oldest row of all if it has none.
   */
  lemma BlankAcronymTakesOldest(t: Tables, a: Association)
    requires Consistent(t)
    ensures FirstOrCreate(t, a).1.acronym == a.acronym <==>
            || a.acronym != ""
            || (if a.id != 0 then a.id !in t.associations || t.associations[a.id].acronym == ""
                else t.associations == map[] || t.associations[Lowest(t.associations.Keys)].acronym == "")
  {
    var ids := KeyMatches(t.associations, a);
    if ids != {} {
      assert MatchesKey(a, t.associations[Lowest(ids)]);
    }
    if a.acronym == "" {
      forall k | k in t.associations ensures k in ids <==> a.id == 0 || k == a.id {
        assert MatchesKey(a, t.associations[k]) <==> a.id == 0 || k == a.id;
      }
      if a.id == 0 {
        assert ids == t.associations.Keys;
      }
    }
  }

  /** The default association, as the tests of the service know it. */
  predicate IsCascadia(a: Association) {
    && a.acronym == "CBRA"
    && a.host == "0.0.0.0|localhost|cbra.web"
    && a.name == "Cascadia Bicycle Racing Association"
  }

  predicate SharesWithCascadia(a: Association) {
    || a.acronym == "CBRA"
    || a.host == "0.0.0.0|localhost|cbra.web"
    || a.name == "Cascadia Bicycle Racing Association"
  }

  /**
    `DefaultOrCreateDefault` comes back without a stored association exactly when the default one is not there as
    written but its acronym, its host or its name is in use.
   */
  lemma DefaultMayBeMissing(t: Tables)
    requires Consistent(t) && Sequenced(t)
    ensures var (t', r) := DefaultOrCreateDefault(t);
      && IsCascadia(r)
      && (r.id != 0 ==> r.id in t'.associations && t'.associations[r.id] == r)
      && (r.id == 0 <==>
            && (forall k | k in t.associations :: !IsCascadia(t.associations[k]))
            && exists k | k in t.associations :: SharesWithCascadia(t.associations[k]))
  {
    assert forall a: Association :: IsDefault(a) <==> IsCascadia(a);
    var ids := DefaultMatches(t.associations);
    if ids == {} {
      forall k | k in t.associations ensures !IsDefault(t.associations[k]) {
        assert k !in ids;
      }
      InsertRefused(t, DEFAULT);
      InsertAssociationKeeps(t, DEFAULT);
    } else {
      assert IsDefault(t.associations[Lowest(ids)]);
    }
  }

  const EMPTY := Tables(map[], [], 1, 1)

  lemma FirstCopy(s: Source)
    requires s.association.Some? && s.events == []
    ensures var a := NewTenant(s.acronym, s.association.value);
      Copy(EMPTY, s).0 == Tables(map[1 := a.(id := 1)], [], 2, 1)
  {
    var a := NewTenant(s.acronym, s.association.value);
    assert KeyMatches(EMPTY.associations, a) == {};
    assert NewEvents(1, s.events) == [];
  }

  /** Concretely: once CBRA was copied under its short name, the default association is neither found nor created. */
  lemma DefaultAfterCopy()
    ensures var s := Source("CBRA", [], Some(RacingAssociation(0, 1, "Cascadia", "CBRA", 0)), true);
      DefaultOrCreateDefault(Copy(EMPTY, s).0).1.id == 0
  {
    var s := Source("CBRA", [], Some(RacingAssociation(0, 1, "Cascadia", "CBRA", 0)), true);
    var t := Copy(EMPTY, s).0;
    FirstCopy(s);
    assert t.associations[1].acronym == "CBRA" && |t.associations[1].name| == 4;
    DefaultMayBeMissing(t);
  }

  /**
    Concretely: the Rails database finds the one association ATRA in any case of the letters. A copy of
    "atra" after a copy of "ATRA" gets no tenant, adds no event and reports no error.
   */
  lemma CopyInOtherCase(events: seq<RailsEvent>)
    ensures var r := Some(RacingAssociation(0, 1, "American Track", "ATRA", 0));
      var t := Copy(EMPTY, Source("ATRA", [], r, true)).0;
      var again := Source("atra", events, r, true);
      Obtained(t, again) == 0 && Copy(t, again).1 && Copy(t, again).0.events == []
  {
    var r := Some(RacingAssociation(0, 1, "American Track", "ATRA", 0));
    var first, again := Source("ATRA", [], r, true), Source("atra", events, r, true);
    var t := Copy(EMPTY, first).0;
    FirstCopy(first);
    assert t.associations[1].acronym == "ATRA" && "ATRA"[0] != "atra"[0];
    NothingObtained(t, again);
  }

  /** Concretely: with ATRA in the table, asking for a blank acronym hands back ATRA. */
  lemma BlankAcronymFindsAnother()
    ensures var atra := Association(0, "ATRA", "atra.local", "American Track", 0, 0);
      var t := FirstOrCreate(EMPTY, atra).0;
      FirstOrCreate(t, Association(0, "", "", "", 0, 0)) == (t, atra.(id := 1))
  {
    var atra, blank := Association(0, "ATRA", "atra.local", "American Track", 0, 0), Association(0, "", "", "", 0, 0);
    assert KeyMatches(EMPTY.associations, atra) == {};
    var t := FirstOrCreate(EMPTY, atra).0;
    assert t.associations == map[1 := atra.(id := 1)];
    assert KeyMatches(t.associations, blank) == {1};
  }

  // ---------- Hosts ----------

  lemma FirstByHostIs(t: Tables, matches: (string, string) -> bool, host: string)
    requires Consistent(t)
    ensures match FirstByHost(t, matches, host)
      case None => forall k | k in t.associations :: !matches(t.associations[k].host, host)
      case Some(r) =>
        && r.id in t.associations && t.associations[r.id] == r && matches(r.host, host)
        && forall k | k in t.associations && matches(t.associations[k].host, host) :: r.id <= k
  {
    var ids := HostMatches(t.associations, matches, host);
    if ids == {} {
      forall k | k in t.associations ensures !matches(t.associations[k].host, host) {
        assert k !in ids;
      }
    } else {
      forall k | k in t.associations && matches(t.associations[k].host, host) ensures Lowest(ids) <= k {
        assert k in ids;
      }
    }
  }

  /** Only the lowest ID among the matching rows counts. */
  lemma FirstByHostUnique(t: Tables, matches: (string, string) -> bool, host: string, k: int)
    requires Consistent(t) && k in t.associations && matches(t.associations[k].host, host)
    requires forall j | j in t.associations && matches(t.associations[j].host, host) :: k <= j
    ensures FirstByHost(t, matches, host) == Some(t.associations[k])
  {
    FirstByHostIs(t, matches, host);
  }

  /**
    A new row takes a host away from the association it resolved to exactly when its pattern matches the host too
    and it was given a lower ID, which only a caller with an ID of its own can do.
   */
  lemma InsertAndHost(t: Tables, a: Association, matches: (string, string) -> bool, host: string)
    requires Consistent(t) && FirstByHost(t, matches, host).Some?
    ensures var (t', r) := InsertAssociation(t, a);
      var before := FirstByHost(t, matches, host);
      FirstByHost(t', matches, host) != before <==>
        t'.associations != t.associations && matches(r.host, host) && r.id < before.value.id
    ensures var (t', r) := InsertAssociation(t, a);
      a.id == 0 && Sequenced(t) && t'.associations != t.associations ==> r.id > FirstByHost(t, matches, host).value.id
  {
    var (t', r) := InsertAssociation(t, a);
    InsertAssociationKeeps(t, a);
    FirstByHostIs(t, matches, host);
    FirstByHostIs(t', matches, host);
    var before := FirstByHost(t, matches, host).value;
    if t'.associations != t.associations {
      assert t'.associations[r.id] == r && r.id !in t.associations;
    } else {
      FirstByHostUnique(t', matches, host, before.id);
    }
  }

  lemma LaterRowsChangeNoHost(t: Tables, t': Tables, matches: (string, string) -> bool, host: string)
    requires Consistent(t) && Consistent(t') && Grows(t, t') && FirstByHost(t, matches, host).Some?
    requires forall k | k in t'.associations && k !in t.associations :: k > FirstByHost(t, matches, host).value.id
    ensures FirstByHost(t', matches, host) == FirstByHost(t, matches, host)
  {
    FirstByHostIs(t, matches, host);
    FirstByHostUnique(t', matches, host, FirstByHost(t, matches, host).value.id);
  }

  lemma {:induction false} NewRowsComeLater(t: Tables, calls: seq<Call>)
    requires Consistent(t) && Sequenced(t) && AllUnnumbered(calls)
    ensures forall k | k in Run(t, calls).associations && k !in t.associations :: k >= t.nextAssociation
    decreases |calls|
  {
    if calls != [] {
      var c := calls[0];
      DoKeeps(t, c);
      NewRowOfCall(t, c);
      assert AllUnnumbered(calls[1..]);
      NewRowsComeLater(Do(t, c), calls[1..]);
    }
  }

  lemma NewRowOfCall(t: Tables, c: Call)
    requires Consistent(t) && Sequenced(t) && Unnumbered(c)
    ensures forall k | k in Do(t, c).associations && k !in t.associations :: k == t.nextAssociation
  {
    match c
    case CreateCall(a) =>
    case FirstOrCreateCall(a) =>
    case DefaultCall =>
    case EventsCall(es) => CreateEventsKeeps(t, es);
    case CopyCall(s) =>
      if s.association.Some? {
        var a := NewTenant(s.acronym, s.association.value);
        FirstOrCreateKeeps(t, a);
        CreateEventsKeeps(FirstOrCreate(t, a).0, NewEvents(FirstOrCreate(t, a).1.id, s.events));
      }
  }

  /** Once a host resolves, it resolves to the same association after every sequence of calls. */
  lemma HostIsStable(t: Tables, calls: seq<Call>, matches: (string, string) -> bool, host: string)
    requires Consistent(t) && Sequenced(t) && AllUnnumbered(calls)
    requires FirstByHost(t, matches, host).Some?
    ensures FirstByHost(Run(t, calls), matches, host) == FirstByHost(t, matches, host)
  {
    RunKeeps(t, calls);
    NewRowsComeLater(t, calls);
    FirstByHostIs(t, matches, host);
    LaterRowsChangeNoHost(t, Run(t, calls), matches, host);
  }

  /**
    After a copy has created a tenant, every host that names it resolves, to the tenant itself or to an older one
    whose pattern matches too; and to itself exactly when there is no such older one.
   */
  lemma HostOfNewTenant(t: Tables, s: Source, calls: seq<Call>, matches: (string, string) -> bool, host: string)
    requires Consistent(t) && Sequenced(t) && AllUnnumbered(calls) && Implements(matches)
    requires s.association.Some? && Obtained(t, s) != 0 && Obtained(t, s) !in t.associations
    requires var name := s.association.value.shortName; IsPlain(name) && '|' !in name && NamesTenant(host, name)
    ensures var k := Obtained(t, s);
      var r := FirstByHost(Run(Copy(t, s).0, calls), matches, host);
      && r.Some? && (r.value.id == k || (r.value.id < k && r.value.id in t.associations))
      && (r.value.id == k <==> FirstByHost(t, matches, host).None?)
  {
    var k, t' := Obtained(t, s), Copy(t, s).0;
    var a := NewTenant(s.acronym, s.association.value);
    CopyCreates(t, s);
    CopyKeeps(t, s);
    HostPatternIsPlain(s.association.value.shortName);
    OwnHostMatches(s.association.value.shortName, host);
    assert matches(a.host, host);
    FirstByHostIs(t, matches, host);
    FirstByHostIs(t', matches, host);
    HostIsStable(t', calls, matches, host);
    if FirstByHost(t, matches, host).Some? {
      var before := FirstByHost(t, matches, host).value;
      assert before.id in t'.associations && before.id < k;
    } else {
      FirstByHostUnique(t', matches, host, k);
    }
  }

  lemma DefaultCreated(t: Tables)
    requires Consistent(t) && Sequenced(t)
    requires forall k | k in t.associations :: !SharesWithCascadia(t.associations[k])
    ensures var (t', r) := DefaultOrCreateDefault(t);
      && InsertAssociation(t, DEFAULT) == (t', r) && r == DEFAULT.(id := t.nextAssociation)
      && IsCascadia(r) && r.railsCreatedAt == r.railsUpdatedAt == 0
      && t'.associations == t.associations[r.id := r] && r.id !in t.associations
      && Consistent(t') && Sequenced(t')
  {
    DefaultMayBeMissing(t);
    assert DefaultMatches(t.associations) == {};
    InsertAssociationKeeps(t, DEFAULT);
  }

  lemma CascadiaHosts(matches: (string, string) -> bool, host: string)
    requires Implements(matches) && NamesTenant(host, "cbra")
    ensures matches("0.0.0.0|localhost|cbra.web", host)
  {
    var name := "cbra";
    assert Lower(name) == name && HostPattern(name) == "0.0.0.0|localhost|cbra.web";
    HostPatternIsPlain(name);
    OwnHostMatches(name, host);
  }

  /**
    Where no row shares anything with the default association, it is created, by either of the two calls; and the hosts
    no row answered to before, "0.0.0.0", "localhost" and all that name cbra, resolve to it from then on.
   */
  lemma DefaultAnswers(t: Tables, calls: seq<Call>, matches: (string, string) -> bool, host: string)
    requires Consistent(t) && Sequenced(t) && AllUnnumbered(calls) && Implements(matches)
    requires forall k | k in t.associations :: !SharesWithCascadia(t.associations[k])
    requires FirstByHost(t, matches, host).None? && NamesTenant(host, "cbra")
    ensures var (t', r) := DefaultOrCreateDefault(t);
      && IsCascadia(r) && r.id == t.nextAssociation && r.railsCreatedAt == r.railsUpdatedAt == 0
      && InsertAssociation(t, DEFAULT) == (t', r)
      && FirstByHost(Run(t', calls), matches, host) == Some(r)
  {
    var (t', r) := DefaultOrCreateDefault(t);
    DefaultCreated(t);
    CascadiaHosts(matches, host);
    FirstByHostIs(t, matches, host);
    FirstByHostUnique(t', matches, host, r.id);
    HostIsStable(t', calls, matches, host);
  }

  /** The row of a new tenant: the acronym asked for, and the short name and times of the Rails association. */
  lemma CopyCreates(t: Tables, s: Source)
    requires Consistent(t) && Sequenced(t)
    requires s.association.Some? && Obtained(t, s) != 0 && Obtained(t, s) !in t.associations
    ensures var a := NewTenant(s.acronym, s.association.value);
      && Obtained(t, s) == t.nextAssociation
      && Copy(t, s).0.associations == t.associations[t.nextAssociation := a.(id := t.nextAssociation)]
      && a.acronym == s.acronym && a.name == s.association.value.shortName
      && a.railsCreatedAt == s.association.value.createdAt && a.railsUpdatedAt == s.association.value.updatedAt
      && SameButCase(a.host, "0.0.0.0|localhost|" + s.association.value.shortName + ".web") && !HasCapital(a.host)
  {
    var a := NewTenant(s.acronym, s.association.value);
    var (t', r) := FirstOrCreate(t, a);
    FirstOrCreateKeeps(t, a);
    HostSpelled(s.acronym, s.association.value);
    CreateEventsKeeps(t', NewEvents(r.id, s.events));
  }

  lemma HostSpelled(acronym: string, r: RacingAssociation)
    ensures var host := NewTenant(acronym, r).host;
      SameButCase(host, "0.0.0.0|localhost|" + r.shortName + ".web") && !HasCapital(host)
  {
    var host, n := NewTenant(acronym, r).host, |r.shortName|;
    var typed := "0.0.0.0|localhost|" + r.shortName + ".web";
    TenantHost(acronym, r);
    forall i | 0 <= i < n + 22 ensures SameLetter(host[i], typed[i]) {
      if i < 18 {
        assert host[i] == host[..18][i];
      } else if i < n + 18 {
        assert host[i] == host[18..n + 18][i - 18];
      } else {
        assert host[i] == host[n + 18..][i - n - 18];
      }
    }
  }

  // ---------- Events ----------

  predicate WritesNoEvents(c: Call) {
    !c.EventsCall?
  }

  /** What a sequence of calls adds to the events of an association: the rows of the copies that obtained it. */
  ghost function AddedByRun(t: Tables, calls: seq<Call>, k: int): seq<Event>
    decreases |calls|
  {
    if calls == [] then []
    else
      (if calls[0].CopyCall? then Added(t, calls[0].s, k) else []) + AddedByRun(Do(t, calls[0]), calls[1..], k)
  }

  lemma Associative(a: seq<Event>, b: seq<Event>, c: seq<Event>)
    ensures a + b + c == a + (b + c)
  {
  }

  lemma DoAdds(t: Tables, c: Call, k: int)
    requires Consistent(t) && Sequenced(t) && WritesNoEvents(c)
    ensures EventsOf(Do(t, c).events, k) == EventsOf(t.events, k) + if c.CopyCall? then Added(t, c.s, k) else []
  {
    if c.CopyCall? {
      CopyAdds(t, c.s, k);
    } else {
      assert Do(t, c).events == t.events;
    }
  }

  /**
    Conservation and isolation over runs in which events come from copies only: the events of each association
    are the old ones, followed by the rows of exactly those copies that obtained it, in order.
   */
  lemma {:induction false} RunAdds(t: Tables, calls: seq<Call>, k: int)
    requires Consistent(t) && Sequenced(t) && AllUnnumbered(calls)
    requires forall i | 0 <= i < |calls| :: WritesNoEvents(calls[i])
    ensures EventsOf(Run(t, calls).events, k) == EventsOf(t.events, k) + AddedByRun(t, calls, k)
    decreases |calls|
  {
    if calls != [] {
      var c, t' := calls[0], Do(t, calls[0]);
      DoKeeps(t, c);
      assert Unnumbered(c) && WritesNoEvents(c);
      assert forall i | 0 <= i < |calls[1..]| :: calls[1..][i] == calls[i + 1];
      RunAdds(t', calls[1..], k);
      DoAdds(t, c, k);
      var first := if c.CopyCall? then Added(t, c.s, k) else [];
      Associative(EventsOf(t.events, k), first, AddedByRun(t', calls[1..], k));
    }
  }

  ghost function CopiedCount(t: Tables, calls: seq<Call>, k: int): nat
    decreases |calls|
  {
    if calls == [] then 0
    else
      var c := calls[0];
      (if c.CopyCall? && c.s.zone && k != 0 && Obtained(t, c.s) == k then |c.s.events| else 0) +
      CopiedCount(Do(t, c), calls[1..], k)
  }

  /** Every association gains as many events as the copies that obtained it brought, repeated copies included. */
  lemma {:induction false} RunCounts(t: Tables, calls: seq<Call>, k: int)
    requires Consistent(t) && Sequenced(t) && AllUnnumbered(calls)
    requires forall i | 0 <= i < |calls| :: WritesNoEvents(calls[i])
    ensures |EventsOf(Run(t, calls).events, k)| == |EventsOf(t.events, k)| + CopiedCount(t, calls, k)
  {
    RunAdds(t, calls, k);
    AddedCount(t, calls, k);
  }

  lemma {:induction false} AddedCount(t: Tables, calls: seq<Call>, k: int)
    ensures |AddedByRun(t, calls, k)| == CopiedCount(t, calls, k)
    decreases |calls|
  {
    if calls != [] {
      AddedCount(Do(t, calls[0]), calls[1..], k);
    }
  }
}
