/**
  Copies at the same time. The HTTP server runs every request on its own, so that between two statements of one copy
  those of others take effect. A step is one statement; a schedule says whose statement comes next.
 */
module Interleaving {
  import opened Tenants
  import opened Copying
  import opened TenantRuns

  /**
    Where a copy stands: about to look for its tenant, about to insert it, inserting events with `done` of them behind,
    or through.
   */
  datatype Phase = Looking | Creating | Inserting(tenant: int, done: nat) | Through(tenant: int, done: nat, ok: bool)

  datatype Thread = Thread(source: Source, phase: Phase)

  /** With a tenant in hand the events are converted, which touches no table, and their inserts begin. */
  function WithTenant(s: Source, tenant: int): Phase {
    if s.events != [] && !s.zone then Through(tenant, 0, false) else Inserting(tenant, 0)
  }

  /** The next statement of a copy. */
  ghost function Step(t: Tables, th: Thread): (Tables, Thread) {
    var s := th.source;
    match th.phase
    case Looking =>
      if s.association.None? then (t, th.(phase := Through(0, 0, false)))
      else
        var found := First(t.associations, KeyMatches(t.associations, NewTenant(s.acronym, s.association.value)));
        if found.Some? && found.value.id != 0 then (t, th.(phase := WithTenant(s, found.value.id)))
        else (t, th.(phase := Creating))
    case Creating =>
      if s.association.None? then (t, th)
      else
        var (t', r) := InsertAssociation(t, NewTenant(s.acronym, s.association.value));
        (t', th.(phase := WithTenant(s, r.id)))
    case Inserting(tenant, done) =>
      if done >= |s.events| || tenant == 0 then (t, th.(phase := Through(tenant, done, true)))
      else (InsertEvent(t, NewEvent(tenant, s.events[done])), th.(phase := Inserting(tenant, done + 1)))
    case Through(_, _, _) => (t, th)
  }

  datatype World = World(t: Tables, threads: seq<Thread>)

  /** A statement of one of the copies, or an association created by somebody else. */
  datatype Turn = Of(thread: nat) | Create(a: Association)

  ghost function Take(w: World, turn: Turn): World {
    match turn
    case Of(i) =>
      if i >= |w.threads| then w
      else
        var (t, th) := Step(w.t, w.threads[i]);
        World(t, w.threads[i := th])
    case Create(a) => w.(t := InsertAssociation(w.t, a).0)
  }

  ghost function RunAll(w: World, schedule: seq<Turn>): World
    decreases |schedule|
  {
    if schedule == [] then w else RunAll(Take(w, schedule[0]), schedule[1..])
  }

  lemma OneTurn(w: World, turn: Turn, rest: seq<Turn>)
    ensures RunAll(w, [turn] + rest) == RunAll(Take(w, turn), rest)
  {
    assert ([turn] + rest)[1..] == rest;
  }

  // ---------- What every step keeps ----------

  function TenantOf(p: Phase): int {
    match p
    case Looking => 0
    case Creating => 0
    case Inserting(tenant, _) => tenant
    case Through(tenant, _, _) => tenant
  }

  function DoneOf(p: Phase): nat {
    match p
    case Looking => 0
    case Creating => 0
    case Inserting(_, done) => done
    case Through(_, done, _) => done
  }

  /** Nothing is written before there is a tenant. */
  predicate InOrder(th: Thread) {
    DoneOf(th.phase) <= |th.source.events| && (TenantOf(th.phase) == 0 ==> DoneOf(th.phase) == 0)
  }

  /** A tenant in hand exists and has the acronym asked for; a copy that is through without an error is complete. */
  ghost predicate Fits(t: Tables, th: Thread) {
    var p, k := th.phase, TenantOf(th.phase);
    && InOrder(th)
    && (k != 0 ==>
          k in t.associations && (th.source.acronym != "" ==> t.associations[k].acronym == th.source.acronym))
    && (p.Through? && p.ok && k != 0 ==> p.done == |th.source.events|)
  }

  ghost predicate Sane(w: World) {
    && Consistent(w.t)
    && forall i | 0 <= i < |w.threads| :: Fits(w.t, w.threads[i])
  }

  predicate UnnumberedTurn(turn: Turn) {
    turn.Create? ==> turn.a.id == 0
  }

  lemma FitsStays(t: Tables, t': Tables, th: Thread)
    requires Fits(t, th) && Grows(t, t')
    ensures Fits(t', th)
  {
  }

  lemma StepKeeps(t: Tables, th: Thread)
    requires Consistent(t) && Fits(t, th)
    ensures var (t', th') := Step(t, th);
      && Consistent(t') && Grows(t, t') && (Sequenced(t) ==> Sequenced(t'))
      && Fits(t', th') && th'.source == th.source
  {
    var s := th.source;
    match th.phase
    case Looking =>
      if s.association.Some? {
        var a := NewTenant(s.acronym, s.association.value);
        var ids := KeyMatches(t.associations, a);
        if ids != {} {
          assert MatchesKey(a, t.associations[Lowest(ids)]);
        }
      }
    case Creating =>
      if s.association.Some? {
        InsertAssociationKeeps(t, NewTenant(s.acronym, s.association.value));
      }
    case Inserting(tenant, done) =>
      if done < |s.events| && tenant != 0 {
        InsertEventKeeps(t, NewEvent(tenant, s.events[done]));
      }
    case Through(_, _, _) =>
  }

  lemma TakeKeeps(w: World, turn: Turn)
    requires Sane(w)
    ensures Sane(Take(w, turn)) && Grows(w.t, Take(w, turn).t)
    ensures UnnumberedTurn(turn) && Sequenced(w.t) ==> Sequenced(Take(w, turn).t)
  {
    var w' := Take(w, turn);
    match turn
    case Of(i) =>
      if i < |w.threads| {
        StepKeeps(w.t, w.threads[i]);
        forall j | 0 <= j < |w'.threads| ensures Fits(w'.t, w'.threads[j]) {
          if j != i {
            FitsStays(w.t, w'.t, w.threads[j]);
          }
        }
      }
    case Create(a) =>
      InsertAssociationKeeps(w.t, a);
      forall j | 0 <= j < |w'.threads| ensures Fits(w'.t, w'.threads[j]) {
        FitsStays(w.t, w'.t, w.threads[j]);
      }
  }

  /**
    Uniqueness over every interleaving: the indexes and the foreign key hold after each statement, no row is lost or
    changed, and a tenant a copy has got hold of exists and has the acronym asked for.
   */
  lemma {:induction false} InterleavingKeeps(w: World, schedule: seq<Turn>)
    requires Sane(w)
    ensures Sane(RunAll(w, schedule)) && Grows(w.t, RunAll(w, schedule).t)
    decreases |schedule|
  {
    if schedule != [] {
      TakeKeeps(w, schedule[0]);
      InterleavingKeeps(Take(w, schedule[0]), schedule[1..]);
      GrowsTransitively(w.t, Take(w, schedule[0]).t, RunAll(w, schedule).t);
    }
  }

  /** Copies of one acronym that run at the same time never get hold of two tenants. */
  lemma OneTenantPerAcronym(w: World, schedule: seq<Turn>, i: nat, j: nat)
    requires Sane(w)
    requires i < |RunAll(w, schedule).threads| && j < |RunAll(w, schedule).threads|
    ensures var (a, b) := (RunAll(w, schedule).threads[i], RunAll(w, schedule).threads[j]);
      a.source.acronym == b.source.acronym != "" && TenantOf(a.phase) != 0 && TenantOf(b.phase) != 0
      ==> TenantOf(a.phase) == TenantOf(b.phase)
  {
    InterleavingKeeps(w, schedule);
    var after := RunAll(w, schedule);
    assert Fits(after.t, after.threads[i]) && Fits(after.t, after.threads[j]);
  }

  // ---------- What the copies write ----------

  /** An event and the copy whose statement inserts it. */
  datatype Entry = Entry(thread: nat, event: Event)

  /** What a turn writes. */
  ghost function Writes(w: World, turn: Turn): seq<Entry> {
    if turn.Create? || turn.thread >= |w.threads| then []
    else
      var th := w.threads[turn.thread];
      if th.phase.Inserting? && th.phase.done < |th.source.events| && th.phase.tenant != 0
      then [Entry(turn.thread, NewEvent(th.phase.tenant, th.source.events[th.phase.done]))]
      else []
  }

  ghost function Log(w: World, schedule: seq<Turn>): seq<Entry>
    decreases |schedule|
  {
    if schedule == [] then [] else Writes(w, schedule[0]) + Log(Take(w, schedule[0]), schedule[1..])
  }

  function EventsIn(log: seq<Entry>): (es: seq<Event>)
    ensures |es| == |log| && forall p | 0 <= p < |es| :: es[p] == log[p].event
  {
    seq(|log|, p requires 0 <= p < |log| => log[p].event)
  }

  /** The part of one copy, in the order of the log. */
  function By(log: seq<Entry>, i: nat): seq<Event>
    decreases |log|
  {
    if log == [] then [] else (if log[0].thread == i then [log[0].event] else []) + By(log[1..], i)
  }

  lemma OpenWhereItFits(t: Tables, th: Thread)
    requires Consistent(t) && Sequenced(t) && Fits(t, th) && TenantOf(th.phase) != 0
    ensures Open(t, TenantOf(th.phase))
  {
  }

  lemma InsertsAreWritten(w: World, i: nat)
    requires i < |w.threads| && Writes(w, Of(i)) != []
    ensures Take(w, Of(i)).t == InsertEvent(w.t, Writes(w, Of(i))[0].event)
    ensures Writes(w, Of(i))[0].event.associationID == TenantOf(w.threads[i].phase)
  {
  }

  /** A turn adds to the events what it writes, under the next ID, and nothing else. */
  lemma TakeWrites(w: World, turn: Turn)
    requires Sane(w) && Sequenced(w.t)
    ensures var t', es := Take(w, turn).t, EventsIn(Writes(w, turn));
      t'.events == w.t.events + Numbered(w.t.nextEvent, es) && t'.nextEvent == w.t.nextEvent + |es|
  {
    var t', es := Take(w, turn).t, EventsIn(Writes(w, turn));
    if es != [] {
      InsertsAreWritten(w, turn.thread);
      OpenWhereItFits(w.t, w.threads[turn.thread]);
      OneGoesIn(w.t, TenantOf(w.threads[turn.thread].phase), es[0]);
      assert Numbered(w.t.nextEvent, es) == [es[0].(id := w.t.nextEvent)];
    } else {
      NothingWritten(w, turn);
      assert Numbered(w.t.nextEvent, es) == [];
    }
  }

  lemma NothingWritten(w: World, turn: Turn)
    requires Writes(w, turn) == []
    ensures Take(w, turn).t.events == w.t.events && Take(w, turn).t.nextEvent == w.t.nextEvent
  {
  }

  lemma NumberedAppend(rows: seq<Event>, first: int, es: seq<Event>, later: seq<Event>)
    requires |es| <= 1
    ensures rows + Numbered(first, es + later) == (rows + Numbered(first, es)) + Numbered(first + |es|, later)
  {
    if es == [] {
      assert es + later == later && rows + [] == rows;
    } else {
      assert es == [es[0]] && (es + later)[1..] == later && es[1..] == [];
      AppendOne(rows, es[0].(id := first), Numbered(first + 1, later));
    }
  }

  lemma EventsConcat(a: seq<Entry>, b: seq<Entry>)
    ensures EventsIn(a + b) == EventsIn(a) + EventsIn(b)
  {
  }

  /** Conservation: the new rows are those of the log, in its order and with consecutive IDs. */
  lemma {:induction false} RowsOfTheLog(w: World, schedule: seq<Turn>)
    requires Sane(w) && Sequenced(w.t)
    requires forall n | 0 <= n < |schedule| :: UnnumberedTurn(schedule[n])
    ensures RunAll(w, schedule).t.events == w.t.events + Numbered(w.t.nextEvent, EventsIn(Log(w, schedule)))
    decreases |schedule|
  {
    if schedule == [] {
      assert EventsIn(Log(w, schedule)) == [] && Numbered(w.t.nextEvent, []) == [];
    } else {
      var w', rest := Take(w, schedule[0]), schedule[1..];
      TakeKeeps(w, schedule[0]);
      TakeWrites(w, schedule[0]);
      assert forall n | 0 <= n < |rest| :: rest[n] == schedule[n + 1];
      RowsOfTheLog(w', rest);
      EventsConcat(Writes(w, schedule[0]), Log(w', rest));
      NumberedAppend(w.t.events, w.t.nextEvent, EventsIn(Writes(w, schedule[0])), EventsIn(Log(w', rest)));
    }
  }

  /** What a turn changes of a copy: its own may move on by what it writes, a tenant once held stays. */
  lemma TakeMoves(w: World, turn: Turn, i: nat)
    requires i < |w.threads| && InOrder(w.threads[i])
    ensures |Take(w, turn).threads| == |w.threads| && InOrder(Take(w, turn).threads[i])
    ensures var th, th', e := w.threads[i], Take(w, turn).threads[i], Writes(w, turn);
      && th'.source == th.source
      && (TenantOf(th.phase) != 0 ==> TenantOf(th'.phase) == TenantOf(th.phase))
      && DoneOf(th'.phase) == DoneOf(th.phase) + (if e != [] && e[0].thread == i then 1 else 0)
      && (e != [] && e[0].thread == i ==>
            && TenantOf(th.phase) != 0 && DoneOf(th.phase) < |th.source.events|
            && e[0].event == NewEvent(TenantOf(th.phase), th.source.events[DoneOf(th.phase)]))
  {
  }

  lemma ByOneMore(e: seq<Entry>, rest: seq<Entry>, i: nat)
    requires |e| <= 1
    ensures By(e + rest, i) == (if e != [] && e[0].thread == i then [e[0].event] else []) + By(rest, i)
  {
    if e == [] {
      assert e + rest == rest;
    } else {
      assert (e + rest)[1..] == rest;
    }
  }

  lemma FirstOfRange(tenant: int, es: seq<RailsEvent>, from: nat, to: nat)
    requires from < to <= |es|
    ensures NewEvents(tenant, es[from..to]) == [NewEvent(tenant, es[from])] + NewEvents(tenant, es[from + 1..to])
  {
  }

  /** Order: the part of one copy in the log is its source events one after the other, all for the tenant it holds. */
  lemma {:induction false} OneCopyInTheLog(w: World, schedule: seq<Turn>, i: nat)
    requires i < |w.threads| && InOrder(w.threads[i])
    ensures |RunAll(w, schedule).threads| == |w.threads|
    ensures var th, th' := w.threads[i], RunAll(w, schedule).threads[i];
      && th'.source == th.source && DoneOf(th.phase) <= DoneOf(th'.phase) <= |th.source.events|
      && (TenantOf(th.phase) != 0 ==> TenantOf(th'.phase) == TenantOf(th.phase))
      && By(Log(w, schedule), i) ==
         NewEvents(TenantOf(th'.phase), th.source.events[DoneOf(th.phase)..DoneOf(th'.phase)])
    decreases |schedule|
  {
    if schedule != [] {
      var w', rest, e := Take(w, schedule[0]), schedule[1..], Writes(w, schedule[0]);
      TakeMoves(w, schedule[0], i);
      OneCopyInTheLog(w', rest, i);
      ByOneMore(e, Log(w', rest), i);
      var th, th' := w.threads[i], RunAll(w, schedule).threads[i];
      var from, to := DoneOf(th.phase), DoneOf(th'.phase);
      if e != [] && e[0].thread == i {
        FirstOfRange(TenantOf(th'.phase), th.source.events, from, to);
      }
    }
  }

  /** Isolation: every row of the log belongs to the tenant of the copy that has written it. */
  lemma {:induction false} RowsOfTheirTenant(w: World, schedule: seq<Turn>, p: nat)
    requires Sane(w) && p < |Log(w, schedule)|
    ensures var e, threads := Log(w, schedule)[p], RunAll(w, schedule).threads;
      e.thread < |threads| && e.event.associationID == TenantOf(threads[e.thread].phase) != 0
    decreases |schedule|
  {
    var w', rest, e := Take(w, schedule[0]), schedule[1..], Writes(w, schedule[0]);
    TakeKeeps(w, schedule[0]);
    if p < |e| {
      TakeMoves(w, schedule[0], e[0].thread);
      OneCopyInTheLog(w', rest, e[0].thread);
    } else {
      RowsOfTheirTenant(w', rest, p - |e|);
    }
  }

  ghost predicate AllBegin(threads: seq<Thread>) {
    forall i | 0 <= i < |threads| :: threads[i].phase.Looking?
  }

  /**
    From the beginning: however the statements of any number of copies alternate, the new events are a merge of what
    the copies have written, with consecutive IDs. Each has its events in the order of its source and for the tenant
    it holds, and all of them once it is through without an error and with a tenant.
   */
  lemma CopiesAtTheSameTime(t: Tables, threads: seq<Thread>, schedule: seq<Turn>)
    requires Consistent(t) && Sequenced(t) && AllBegin(threads)
    requires forall n | 0 <= n < |schedule| :: UnnumberedTurn(schedule[n])
    ensures var after, log := RunAll(World(t, threads), schedule), Log(World(t, threads), schedule);
      && after.t.events == t.events + Numbered(t.nextEvent, EventsIn(log))
      && |after.threads| == |threads|
      && (forall p | 0 <= p < |log| ::
            log[p].thread < |threads| && log[p].event.associationID == TenantOf(after.threads[log[p].thread].phase))
      && (forall i | 0 <= i < |threads| ::
            var th := after.threads[i];
            && th.source == threads[i].source && DoneOf(th.phase) <= |th.source.events|
            && By(log, i) == NewEvents(TenantOf(th.phase), th.source.events[..DoneOf(th.phase)])
            && (th.phase.Through? && th.phase.ok && th.phase.tenant != 0 ==>
                  By(log, i) == NewEvents(th.phase.tenant, th.source.events)))
  {
    var w := World(t, threads);
    InterleavingKeeps(w, schedule);
    RowsOfTheLog(w, schedule);
    var after, log := RunAll(w, schedule), Log(w, schedule);
    ThreadsStay(w, schedule);
    forall p | 0 <= p < |log|
      ensures log[p].thread < |threads| && log[p].event.associationID == TenantOf(after.threads[log[p].thread].phase)
    {
      RowsOfTheirTenant(w, schedule, p);
    }
    forall i | 0 <= i < |threads|
      ensures var th := after.threads[i];
        && th.source == threads[i].source && DoneOf(th.phase) <= |th.source.events|
        && By(log, i) == NewEvents(TenantOf(th.phase), th.source.events[..DoneOf(th.phase)])
        && (th.phase.Through? && th.phase.ok && th.phase.tenant != 0 ==>
              By(log, i) == NewEvents(th.phase.tenant, th.source.events))
    {
      OneCopyInTheLog(w, schedule, i);
      var th := after.threads[i];
      assert Fits(after.t, th);
      assert th.source.events[0..DoneOf(th.phase)] == th.source.events[..DoneOf(th.phase)];
      assert DoneOf(th.phase) == |th.source.events| ==> th.source.events[..DoneOf(th.phase)] == th.source.events;
    }
  }

  lemma {:induction false} ThreadsStay(w: World, schedule: seq<Turn>)
    ensures |RunAll(w, schedule).threads| == |w.threads|
    decreases |schedule|
  {
    if schedule != [] {
      ThreadsStay(Take(w, schedule[0]), schedule[1..]);
    }
  }

  // ---------- A copy on its own ----------

  /** `n` statements of one copy with nobody in between. */
  ghost function Alone(t: Tables, th: Thread, n: nat): (Tables, Thread)
    decreases n
  {
    if n == 0 then (t, th)
    else
      var (t', th') := Step(t, th);
      Alone(t', th', n - 1)
  }

  function Turns(i: nat, n: nat): seq<Turn> {
    if n == 0 then [] else [Of(i)] + Turns(i, n - 1)
  }

  lemma {:induction false} RunAlone(w: World, i: nat, n: nat)
    requires i < |w.threads|
    ensures var (t, th) := Alone(w.t, w.threads[i], n);
      RunAll(w, Turns(i, n)) == World(t, w.threads[i := th])
    decreases n
  {
    if n > 0 {
      OneTurn(w, Of(i), Turns(i, n - 1));
      RunAlone(Take(w, Of(i)), i, n - 1);
    }
  }

  lemma {:induction false} ThroughStays(t: Tables, th: Thread, n: nat)
    requires th.phase.Through?
    ensures Alone(t, th, n) == (t, th)
    decreases n
  {
    if n > 0 {
      ThroughStays(t, th, n - 1);
    }
  }

  lemma NextStepOf(t: Tables, s: Source, tenant: int, done: nat)
    requires done < |s.events| && tenant != 0
    ensures Step(t, Thread(s, Inserting(tenant, done))) ==
            (InsertEvent(t, NewEvent(tenant, s.events[done])), Thread(s, Inserting(tenant, done + 1)))
  {
  }

  lemma {:induction false} InsertsAlone(t: Tables, s: Source, tenant: int, done: nat, n: nat)
    requires done <= |s.events| < n + done && (tenant == 0 ==> done == 0)
    ensures var (t', th) := Alone(t, Thread(s, Inserting(tenant, done)), n);
      && t' == CreateEvents(t, NewEvents(tenant, s.events[done..])).0
      && th == Thread(s, Through(tenant, if tenant == 0 then 0 else |s.events|, true))
    decreases n
  {
    var es := NewEvents(tenant, s.events[done..]);
    if done == |s.events| || tenant == 0 {
      ThroughStays(t, Thread(s, Through(tenant, done, true)), n - 1);
    } else {
      NextStepOf(t, s, tenant, done);
      assert es[1..] == NewEvents(tenant, s.events[done + 1..]);
      InsertsAlone(InsertEvent(t, es[0]), s, tenant, done + 1, n - 1);
    }
  }

  lemma WithTenantAlone(t: Tables, s: Source, tenant: int, n: nat)
    requires |s.events| < n
    ensures var (t', th) := Alone(t, Thread(s, WithTenant(s, tenant)), n);
      && th.phase.Through? && th.phase.tenant == tenant
      && (t', th.phase.ok) ==
         if s.events != [] && !s.zone then (t, false) else (CreateEvents(t, NewEvents(tenant, s.events)).0, true)
  {
    if s.events != [] && !s.zone {
      ThroughStays(t, Thread(s, WithTenant(s, tenant)), n);
    } else {
      InsertsAlone(t, s, tenant, 0, n);
      assert s.events[0..] == s.events;
    }
  }

  lemma AloneFromLooking(t: Tables, s: Source)
    requires Consistent(t)
    ensures var (t', th) := Alone(t, Thread(s, Looking), |s.events| + 3);
      && th.phase.Through? && th.phase.tenant == Obtained(t, s)
      && (t', th.phase.ok) == Copy(t, s)
  {
    var th := Thread(s, Looking);
    var n := |s.events| + 2;
    match s.association
    case None =>
      ThroughStays(t, Step(t, th).1, n);
    case Some(r) =>
      var a := NewTenant(s.acronym, r);
      var found := First(t.associations, KeyMatches(t.associations, a));
      if found.Some? {
        assert found.value.id != 0;
        WithTenantAlone(t, s, found.value.id, n);
      } else {
        var (t', row) := InsertAssociation(t, a);
        assert Step(t, th) == (t, Thread(s, Creating));
        assert Step(t, Thread(s, Creating)) == (t', Thread(s, WithTenant(s, row.id)));
        WithTenantAlone(t', s, row.id, n - 1);
      }
  }

  /**
    The statements add up to the call: a copy whose turns follow each other leaves the tables, the tenant and the
    error `Copying.Copy` gives, whatever other copies are waiting.
   */
  lemma UndisturbedIsCopy(w: World, i: nat)
    requires Consistent(w.t) && i < |w.threads| && w.threads[i].phase.Looking?
    ensures var s := w.threads[i].source;
      var after := RunAll(w, Turns(i, |s.events| + 3));
      && after.t == Copy(w.t, s).0 && |after.threads| == |w.threads|
      && after.threads[i].phase.Through?
      && after.threads[i].phase.tenant == Obtained(w.t, s) && after.threads[i].phase.ok == Copy(w.t, s).1
      && (forall j | 0 <= j < |w.threads| && j != i :: after.threads[j] == w.threads[j])
  {
    var s := w.threads[i].source;
    AloneFromLooking(w.t, s);
    RunAlone(w, i, |s.events| + 3);
  }

  // ---------- The race ----------

  /** The acronym, the host or the name that the copy would give its tenant is in use, or the next ID is. */
  ghost predicate IsTaken(t: Tables, s: Source)
    requires s.association.Some?
  {
    var a := NewTenant(s.acronym, s.association.value);
    exists k | k in t.associations ::
      || k == t.nextAssociation
      || t.associations[k].acronym == a.acronym
      || t.associations[k].host == a.host
      || t.associations[k].name == a.name
  }

  /** The statement that decides. */
  lemma RefusedAtInsert(t: Tables, th: Thread)
    requires Consistent(t) && th.phase.Creating? && th.source.association.Some?
    ensures TenantOf(Step(t, th).1.phase) == 0 <==> IsTaken(t, th.source)
  {
  }

  /** The n-th turn is the insert of the copy, and comes too late. */
  ghost predicate TooLate(w: World, schedule: seq<Turn>, i: nat, n: nat) {
    && n < |schedule| && schedule[n] == Of(i)
    && var before := RunAll(w, schedule[..n]);
    && i < |before.threads| && before.threads[i].phase.Creating? && before.threads[i].source.association.Some?
    && IsTaken(before.t, before.threads[i].source)
  }

  predicate HasDecided(p: Phase) {
    p.Inserting? || p.Through?
  }

  lemma TooLateShift(w: World, schedule: seq<Turn>, i: nat, n: nat)
    requires n + 1 < |schedule|
    ensures TooLate(w, schedule, i, n + 1) <==> TooLate(Take(w, schedule[0]), schedule[1..], i, n)
  {
    assert schedule[..n + 1] == [schedule[0]] + schedule[1..][..n];
    OneTurn(w, schedule[0], schedule[1..][..n]);
  }

  lemma DecidedStays(w: World, turn: Turn, i: nat)
    requires i < |w.threads| && HasDecided(w.threads[i].phase)
    ensures var p := Take(w, turn).threads[i].phase;
      HasDecided(p) && TenantOf(p) == TenantOf(w.threads[i].phase)
  {
  }

  lemma FirstDecision(w: World, turn: Turn, i: nat)
    requires Sane(w) && i < |w.threads| && w.threads[i].source.association.Some?
    requires !HasDecided(w.threads[i].phase) && HasDecided(Take(w, turn).threads[i].phase)
    ensures TenantOf(Take(w, turn).threads[i].phase) == 0 <==> TooLate(w, [turn], i, 0)
  {
    assert [turn][..0] == [];
    var th := w.threads[i];
    if th.phase.Creating? {
      RefusedAtInsert(w.t, th);
    } else {
      StepKeeps(w.t, th);
    }
  }

  /** A copy that has decided has it behind. */
  lemma {:induction false} NeverTooLateAgain(w: World, schedule: seq<Turn>, i: nat, n: nat)
    requires i < |w.threads| && HasDecided(w.threads[i].phase)
    ensures !TooLate(w, schedule, i, n)
    decreases n
  {
    if n > 0 && n < |schedule| {
      DecidedStays(w, schedule[0], i);
      TooLateShift(w, schedule, i, n - 1);
      NeverTooLateAgain(Take(w, schedule[0]), schedule[1..], i, n - 1);
    }
  }

  lemma {:induction false} DecidedForGood(w: World, schedule: seq<Turn>, i: nat)
    requires i < |w.threads| && HasDecided(w.threads[i].phase)
    ensures |RunAll(w, schedule).threads| == |w.threads|
    ensures TenantOf(RunAll(w, schedule).threads[i].phase) == TenantOf(w.threads[i].phase)
    decreases |schedule|
  {
    if schedule != [] {
      DecidedStays(w, schedule[0], i);
      DecidedForGood(Take(w, schedule[0]), schedule[1..], i);
    }
  }

  /**
    Who is left out. Over every schedule, a copy of a known Rails association ends without a tenant if and only if at
    the moment of its insert the acronym, the host or the name was taken, or the next ID was, by a row that had brought
    its own; whether they were taken when the copy looked does not matter.
   */
  lemma {:induction false} LeftOut(w: World, schedule: seq<Turn>, i: nat)
    requires Sane(w) && i < |w.threads| && w.threads[i].source.association.Some?
    requires !HasDecided(w.threads[i].phase)
    ensures |RunAll(w, schedule).threads| == |w.threads|
    ensures HasDecided(RunAll(w, schedule).threads[i].phase) ==>
              (TenantOf(RunAll(w, schedule).threads[i].phase) == 0 <==> exists n :: TooLate(w, schedule, i, n))
    decreases |schedule|
  {
    ThreadsStay(w, schedule);
    if schedule != [] {
      var w', rest := Take(w, schedule[0]), schedule[1..];
      TakeKeeps(w, schedule[0]);
      TakeMoves(w, schedule[0], i);
      assert schedule[..0] == [] && [schedule[0]][..0] == [];
      assert TooLate(w, schedule, i, 0) <==> TooLate(w, [schedule[0]], i, 0);
      if HasDecided(w'.threads[i].phase) {
        FirstDecision(w, schedule[0], i);
        DecidedForGood(w', rest, i);
        forall n: nat | TooLate(w, schedule, i, n) ensures n == 0 {
          if n > 0 {
            TooLateShift(w, schedule, i, n - 1);
            NeverTooLateAgain(w', rest, i, n - 1);
          }
        }
      } else {
        LeftOut(w', rest, i);
        NotYet(w, schedule, i);
        forall n | 0 < n < |schedule| ensures TooLate(w, schedule, i, n) <==> TooLate(w', rest, i, n - 1) {
          TooLateShift(w, schedule, i, n - 1);
        }
        forall n: nat | TooLate(w', rest, i, n) ensures TooLate(w, schedule, i, n + 1) {
        }
      }
    }
  }

  lemma NotYet(w: World, schedule: seq<Turn>, i: nat)
    requires schedule != [] && i < |w.threads| && !HasDecided(Take(w, schedule[0]).threads[i].phase)
    ensures !TooLate(w, schedule, i, 0)
  {
    assert schedule[..0] == [];
  }

  /**
    A concrete race on an empty database: two copies of one acronym both look before either inserts. Alone the second
    would find the tenant of the first; here it ends without a tenant, an event or an error.
   */
  lemma Race(s: Source)
    requires s.association.Some? && s.zone && |s.events| == 1
    ensures var th := Thread(s, Looking);
      var schedule := [Of(0), Of(1), Of(0), Of(1), Of(1)];
      RunAll(World(EMPTY, [th, th]), schedule).threads[1].phase == Through(0, 0, true)
    ensures Obtained(Copy(EMPTY, s).0, s) != 0
  {
    var a, th := NewTenant(s.acronym, s.association.value), Thread(s, Looking);
    var w0 := World(EMPTY, [th, th]);
    assert KeyMatches(EMPTY.associations, a) == {};
    var waiting := th.(phase := Creating);
    var w2 := Take(Take(w0, Of(0)), Of(1));
    assert w2 == World(EMPTY, [waiting, waiting]);
    var w3 := Take(w2, Of(0));
    assert w3.threads == [th.(phase := Inserting(1, 0)), waiting] && w3.t.associations == map[1 := a.(id := 1)];
    var w4 := Take(w3, Of(1));
    assert w3.t.associations[1].acronym == a.acronym;
    assert w4.threads[1] == th.(phase := Inserting(0, 0));
    var w5 := Take(w4, Of(1));
    assert w5.threads[1].phase == Through(0, 0, true);
    FiveTurns(w0, Of(0), Of(1), Of(0), Of(1), Of(1));
    SecondCopyFinds(s);
  }

  lemma FiveTurns(w: World, a: Turn, b: Turn, c: Turn, d: Turn, e: Turn)
    ensures RunAll(w, [a, b, c, d, e]) == Take(Take(Take(Take(Take(w, a), b), c), d), e)
  {
    var w2 := Take(Take(w, a), b);
    OneTurn(w, a, [b, c, d, e]);
    OneTurn(Take(w, a), b, [c, d, e]);
    OneTurn(w2, c, [d, e]);
    OneTurn(Take(w2, c), d, [e]);
    OneTurn(Take(Take(w2, c), d), e, []);
    assert [a] + [b, c, d, e] == [a, b, c, d, e] && [b] + [c, d, e] == [b, c, d, e];
    assert [c] + [d, e] == [c, d, e] && [d] + [e] == [d, e] && [e] + [] == [e];
  }

  /** One after the other, the second copy finds the tenant of the first. */
  lemma SecondCopyFinds(s: Source)
    requires s.association.Some?
    ensures Obtained(Copy(EMPTY, s).0, s) != 0
  {
    var a := NewTenant(s.acronym, s.association.value);
    CopyKeeps(EMPTY, s);
    assert KeyMatches(EMPTY.associations, a) == {};
    var t := Copy(EMPTY, s).0;
    FirstOrCreateKeeps(EMPTY, a);
    CreateEventsKeeps(FirstOrCreate(EMPTY, a).0, NewEvents(1, s.events));
    assert 1 in t.associations && t.associations[1] == a.(id := 1);
    assert MatchesKey(a, t.associations[1]) && 1 in KeyMatches(t.associations, a);
  }
}
