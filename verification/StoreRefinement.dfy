/** What each step of the store does, and what the store amounts to: one map with
    write, publish and rollback. */
module StoreRefinement {
  import opened Common
  import opened ZoneLock
  import opened PendingChanges

  // ----------------------------------------------- what each step does

  /** Whoever is inside can go on, unless its commit was rejected: a body that awaits
      nothing does anything, the oldest write call is answered either way, and one
      that settles without a commit leaves. */
  lemma EveryCallerCanGoOn(s: Store, c: Caller, e: StoreEvent)
    requires StoreInv(s)
    ensures c !in s.lock.phase && e.Enter? && e.caller == c ==> CanStep(s, e)
    ensures c in s.lock.phase && s.lock.phase[c].Inside() && !s.lock.phase[c].Stuck? ==>
              if s.flights == [] then
                && (s.lock.phase[c].Settling? ==> CanStep(s, Settled(c)))
                && (s.lock.phase[c].Running? && e.caller == c && BodyStep(e) ==> CanStep(s, e))
              else
                CanStep(s, Committed(s.flights[0].caller)) && CanStep(s, CommitRejected(s.flights[0].caller))
  {
  }

  predicate BodyStep(e: StoreEvent) {
    e.PutRow? || e.Return? || e.Throw? || (e.GetRow? && (e.kind == SessionKind || e.kind == SenderKeyKind))
  }

  /** A row that the zone buffers is pending; any other put starts a commit of all that
      is pending, for which its caller waits inside its body. */
  lemma PutStep(s: Store, c: Caller, k: Kind, id: string, v: Bytes)
    requires InBody(s, c)
    ensures var t, z := StoreStep(s, PutRow(c, k, id, v)), s.lock.phase[c].zone;
            && t.lock == s.lock && t.db == s.db && t.sessions == s.sessions && t.senderKeys == s.senderKeys
            && if (k.SessionKind? && z.pendingSessions) || (k.SenderKeyKind? && z.pendingSenderKeys)
                  || (k.UnprocessedKind? && z.pendingUnprocessed)
               then t.flights == s.flights && Rows(t.pending) == PutInTables(Rows(s.pending), k, id, v)
               else
                 && t.pending == NO_CHANGES && |t.flights| == |s.flights| + 1 && s.flights <= t.flights
                 && t.flights[|s.flights|].caller == c && !InBody(t, c)
                 && Rows(t.flights[|s.flights|].changes) == PutInTables(Rows(s.pending), k, id, v)
  {
    PutChangesOneRow(s.pending, k, id, v);
    assert id in (if k.SessionKind? then Put(s.pending, k, id, v).sessions.Keys
                  else if k.SenderKeyKind? then Put(s.pending, k, id, v).senderKeys.Keys
                  else Put(s.pending, k, id, v).unprocessed.Keys);
    hide Rows, PutInTables;
  }

  /** After a put its value is the latest one of its key, and all others are as before. */
  lemma PutIsLatest(s: Store, c: Caller, k: Kind, id: string, v: Bytes, j: Kind, x: string)
    requires StoreInv(s) && InBody(s, c)
    ensures Lookup(TableOf(Latest(StoreStep(s, PutRow(c, k, id, v))), j), x) ==
            if j == k && x == id then Some(v) else Lookup(TableOf(Latest(s), j), x)
  {
    hide Latest, StoreInv;
    PutRefines(s, PutRow(c, k, id, v));
    hide StoreStep;
  }

  /** A get hydrates the cached entry it answers from, and changes nothing else. */
  lemma GetStep(s: Store, c: Caller, k: Kind, id: string)
    requires StoreInv(s) && InBody(s, c) && !k.UnprocessedKind?
    ensures var t := StoreStep(s, GetRow(c, k, id));
            if k.SessionKind?
            then t == s.(sessions := if id in s.pending.sessions || id !in s.sessions then s.sessions
                                     else s.sessions[id := CacheEntry(true, s.sessions[id].fromDB)])
            else t == s.(senderKeys := if id in s.pending.senderKeys || id !in s.senderKeys then s.senderKeys
                                       else s.senderKeys[id := CacheEntry(true, s.senderKeys[id].fromDB)])
  {
    if id in s.pending.sessions {
      assert s.pending.sessions[id := s.pending.sessions[id]] == s.pending.sessions;
    }
    if id in s.senderKeys {
      assert s.senderKeys[id := s.senderKeys[id]] == s.senderKeys;
    }
  }

  /** Entering, and the end of a body: the last one inside moves what is pending out to
      the database, or drops it; nobody else touches it. */
  lemma BodyEndsExactly(s: Store, e: StoreEvent)
    requires StoreInv(s) && CanStep(s, e) && (e.Enter? || e.Return? || e.Throw? || e.Settled?)
    ensures var t, c := StoreStep(s, e), e.caller;
            && t.db == s.db && t.sessions == s.sessions && t.senderKeys == s.senderKeys
            && t.lock == Step(s.lock, if e.Enter? then Call(c, e.zone) else if e.Settled? then Settle(c) else Finish(c, e.Return?))
            && if (e.Return? || e.Throw?) && s.lock.depth == 1
               then t.pending == NO_CHANGES
                    && t.flights == (if e.Throw? || s.pending == NO_CHANGES then s.flights else s.flights + [Flight(c, s.pending)])
               else t.pending == s.pending && t.flights == s.flights
  {
  }

  /** The oldest write call is answered.  If it succeeded, rows and caches have its
      changes; a caller whose body is done then leaves, or is stuck inside for ever. */
  lemma AnswerExactly(s: Store, e: StoreEvent, k: Kind, id: string)
    requires StoreInv(s) && CanStep(s, e) && (e.Committed? || e.CommitRejected?)
    ensures var t, c, batch := StoreStep(s, e), e.caller, s.flights[0].changes;
            && t.flights == s.flights[1..] && t.pending == s.pending
            && t.sessions == (if e.Committed? then s.sessions + batch.sessions else s.sessions)
            && t.senderKeys == (if e.Committed? then s.senderKeys + batch.senderKeys else s.senderKeys)
            && Lookup(TableOf(t.db, k), id) ==
               Lookup(if e.Committed? && id in TableOf(Rows(batch), k) then TableOf(Rows(batch), k) else TableOf(s.db, k), id)
            && c in s.lock.phase
            && t.lock == (if s.lock.phase[c].Running? then s.lock
                          else if e.Committed? then Step(s.lock, Settle(c)) else Step(s.lock, SettleFails(c)))
  {
    OverlayAt(s.db, Rows(s.flights[0].changes), k, id);
  }

  // ----------------------------------- one map with commit and rollback

  function Pile(t: Tables, fs: seq<Flight>): Tables
    decreases |fs|
  {
    if fs == [] then t else Pile(Overlay(t, Rows(fs[0].changes)), fs[1..])
  }

  /** The value every key was last given: the rows, then the commits in flight
      in the order they started, then the pending changes. */
  function Latest(s: Store): Tables {
    Overlay(Pile(s.db, s.flights), Rows(s.pending))
  }

  lemma {:induction false} PileAppend(t: Tables, fs: seq<Flight>, f: Flight)
    ensures Pile(t, fs + [f]) == Overlay(Pile(t, fs), Rows(f.changes))
    decreases |fs|
  {
    if fs == [] {
      assert fs + [f] == [f];
    } else {
      assert (fs + [f])[1..] == fs[1..] + [f];
      PileAppend(Overlay(t, Rows(fs[0].changes)), fs[1..], f);
    }
  }

  lemma StartCommitKeepsLatest(s: Store, c: Caller)
    ensures Latest(StartCommit(s, c)) == Latest(s)
  {
    PileAppend(s.db, s.flights, Flight(c, s.pending));
    OverlayNothing(Latest(s));
    hide Pile, Overlay, Rows;
  }

  lemma OverlayNothing(t: Tables)
    ensures Overlay(t, Rows(NO_CHANGES)) == t
  {
  }

  lemma PutChangesOneRow(p: Pending, k: Kind, id: string, v: Bytes)
    ensures Rows(Put(p, k, id, v)) == PutInTables(Rows(p), k, id, v)
  {
    FromDBUpdate(p.sessions, id, CacheEntry(true, v));
    FromDBUpdate(p.senderKeys, id, CacheEntry(true, v));
  }

  function PutInTables(t: Tables, k: Kind, id: string, v: Bytes): Tables {
    match k
    case SessionKind => t.(sessions := t.sessions[id := v])
    case SenderKeyKind => t.(senderKeys := t.senderKeys[id := v])
    case UnprocessedKind => t.(unprocessed := t.unprocessed[id := v])
  }

  lemma OverlayPut(a: Tables, b: Tables, k: Kind, id: string, v: Bytes)
    ensures Overlay(a, PutInTables(b, k, id, v)) == PutInTables(Overlay(a, b), k, id, v)
  {
    match k
    case SessionKind => assert a.sessions + b.sessions[id := v] == (a.sessions + b.sessions)[id := v];
    case SenderKeyKind => assert a.senderKeys + b.senderKeys[id := v] == (a.senderKeys + b.senderKeys)[id := v];
    case UnprocessedKind => assert a.unprocessed + b.unprocessed[id := v] == (a.unprocessed + b.unprocessed)[id := v];
  }

  /** The simple machine the store refines: what was last written, and what is
      committed. */
  datatype Simple = Simple(latest: Tables, committed: Tables)

  datatype SimpleEvent =
    | Write(kind: Kind, id: string, value: Bytes)
    | Publish(changes: Tables)
    | Rollback
    | Nothing

  function SimpleStep(m: Simple, e: SimpleEvent): Simple {
    match e
    case Write(k, id, v) => m.(latest := PutInTables(m.latest, k, id, v))
    case Publish(changes) => m.(committed := Overlay(m.committed, changes))
    case Rollback => m.(latest := m.committed)
    case Nothing => m
  }

  function Abstract(s: Store): Simple {
    Simple(Latest(s), s.db)
  }

  function AbstractEvent(s: Store, e: StoreEvent): SimpleEvent
    requires CanStep(s, e)
  {
    match e
    case PutRow(_, k, id, v) => Write(k, id, v)
    case Committed(_) => Publish(Rows(s.flights[0].changes))
    case Throw(_) => if s.lock.depth == 1 then Rollback else Nothing
    case _ => Nothing
  }

  /** Every step but a rejected commit is a step of the simple machine: a put
      writes one row, a get, a nested return and a nested failure do nothing, a
      failure at depth one discards exactly what was written since the last
      commit, and a commit publishes a whole batch and changes no answer. */
  lemma StepRefinesSimple(s: Store, e: StoreEvent)
    requires StoreInv(s) && CanStep(s, e) && !e.CommitRejected?
    ensures Abstract(StoreStep(s, e)) == SimpleStep(Abstract(s), AbstractEvent(s, e))
  {
    match e {
      case PutRow(_, _, _, _) => PutRefines(s, e);
      case GetRow(_, _, _) => GetRefines(s, e);
      case Return(_) => ReturnRefines(s, e);
      case Throw(_) => ThrowRefines(s, e);
      case _ => OtherStepRefines(s, e);
    }
  }

  lemma PutRefines(s: Store, e: StoreEvent)
    requires e.PutRow? && CanStep(s, e)
    ensures Abstract(StoreStep(s, e)) == SimpleStep(Abstract(s), AbstractEvent(s, e))
  {
    hide Put, Latest, CanStep;
    PutWrites(s, e.caller, e.kind, e.id, e.value);
    LockIsNotData(DataAfter(s, e), LockAfter(s, e));
  }

  lemma GetRefines(s: Store, e: StoreEvent)
    requires e.GetRow? && CanStep(s, e)
    ensures Abstract(StoreStep(s, e)) == SimpleStep(Abstract(s), AbstractEvent(s, e))
  {
    hide Latest, CanStep, LoadSession, GetSenderKey;
    GetChangesNothing(s, e.id);
    LockIsNotData(DataAfter(s, e), LockAfter(s, e));
  }

  lemma ReturnRefines(s: Store, e: StoreEvent)
    requires e.Return? && CanStep(s, e)
    ensures Abstract(StoreStep(s, e)) == SimpleStep(Abstract(s), AbstractEvent(s, e))
  {
    StartCommitKeepsLatest(s, e.caller);
    assert StartCommit(s, e.caller).db == s.db;
    hide Latest, CanStep, StartCommit;
    LockIsNotData(DataAfter(s, e), LockAfter(s, e));
  }

  lemma ThrowRefines(s: Store, e: StoreEvent)
    requires e.Throw? && StoreInv(s) && CanStep(s, e)
    ensures Abstract(StoreStep(s, e)) == SimpleStep(Abstract(s), AbstractEvent(s, e))
  {
    hide Latest, StoreInv;
    if s.lock.depth == 1 {
      RevertDiscards(s, e.caller);
    }
    LockIsNotData(DataAfter(s, e), LockAfter(s, e));
  }

  lemma OtherStepRefines(s: Store, e: StoreEvent)
    requires CanStep(s, e) && (e.Enter? || e.Committed? || e.Settled?)
    ensures Abstract(StoreStep(s, e)) == SimpleStep(Abstract(s), AbstractEvent(s, e))
  {
    LockIsNotData(DataAfter(s, e), LockAfter(s, e));
    if e.Committed? {
      CompletingKeepsLatest(s);
    }
    hide Latest, CanStep;
  }

  lemma LockIsNotData(s: Store, l: Lock)
    ensures Abstract(s.(lock := l)) == Abstract(s)
  {
  }

  lemma CompletingKeepsLatest(s: Store)
    requires s.flights != []
    ensures Latest(CompleteCommit(s)) == Latest(s)
    ensures CompleteCommit(s).db == Overlay(s.db, Rows(s.flights[0].changes))
  {
  }

  lemma PutWrites(s: Store, c: Caller, k: Kind, id: string, v: Bytes)
    ensures var u := s.(pending := Put(s.pending, k, id, v));
            && Latest(u) == PutInTables(Latest(s), k, id, v)
            && Latest(StartCommit(u, c)) == Latest(u)
  {
    PutChangesOneRow(s.pending, k, id, v);
    OverlayPut(Pile(s.db, s.flights), Rows(s.pending), k, id, v);
    StartCommitKeepsLatest(s.(pending := Put(s.pending, k, id, v)), c);
  }

  lemma GetChangesNothing(s: Store, id: string)
    ensures Abstract(LoadSession(s, id)) == Abstract(s)
    ensures Abstract(GetSenderKey(s, id)) == Abstract(s)
  {
    if id in s.pending.sessions { HydrateKeepsValues(s.pending.sessions, id); }
  }

  lemma RevertedLatest(s: Store)
    requires s.flights == []
    ensures Latest(s.(pending := NO_CHANGES)) == s.db
  {
  }

  lemma RevertDiscards(s: Store, c: Caller)
    requires StoreInv(s) && CanStep(s, Throw(c)) && s.lock.depth == 1
    ensures s.flights == []
    ensures Latest(s.(pending := NO_CHANGES)) == s.db
  {
    hide Latest;
    AloneMeansNoFlights(s, c);
    hide *;
    RevertedLatest(s);
  }

  function AbstractRun(s: Store, es: seq<StoreEvent>): seq<SimpleEvent>
    requires StoreRun(s, es)
    decreases |es|
  {
    if es == [] then [] else [AbstractEvent(s, es[0])] + AbstractRun(StoreStep(s, es[0]), es[1..])
  }

  function SimpleAfter(m: Simple, es: seq<SimpleEvent>): Simple
    decreases |es|
  {
    if es == [] then m else SimpleAfter(SimpleStep(m, es[0]), es[1..])
  }

  lemma {:induction false} RunRefinesSimple(s: Store, es: seq<StoreEvent>)
    requires StoreInv(s) && StoreRun(s, es)
    requires forall i :: 0 <= i < |es| ==> !es[i].CommitRejected?
    ensures Abstract(StoreAfter(s, es)) == SimpleAfter(Abstract(s), AbstractRun(s, es))
    decreases |es|
  {
    if es != [] {
      StepRefinesSimple(s, es[0]);
      StoreStepKeepsInv(s, es[0]);
      var t := StoreStep(s, es[0]);
      RunRefinesSimple(t, es[1..]);
      assert AbstractRun(s, es)[1..] == AbstractRun(t, es[1..]);
    }
  }

  /** One of the three tables. */
  function TableOf(t: Tables, k: Kind): map<string, Bytes> {
    match k
    case SessionKind => t.sessions
    case SenderKeyKind => t.senderKeys
    case UnprocessedKind => t.unprocessed
  }

  ghost predicate WrittenBy(fs: seq<Flight>, k: Kind, id: string) {
    exists j :: 0 <= j < |fs| && id in TableOf(Rows(fs[j].changes), k)
  }

  /** A rejected commit loses its whole batch, and only that: the latest value of a
      key is the one before if it is pending, written again by a later commit, or not
      in the batch, and the committed row otherwise.  No read changes its answer. */
  lemma RejectedCommitDropsItsBatch(s: Store, e: StoreEvent, k: Kind, id: string)
    requires CanStep(s, e) && e.CommitRejected?
    ensures var t := StoreStep(s, e);
            && t.db == s.db && t.sessions == s.sessions && t.senderKeys == s.senderKeys
            && t.pending == s.pending && t.flights == s.flights[1..]
            && ReadSession(t, id) == ReadSession(s, id) && ReadSenderKey(t, id) == ReadSenderKey(s, id)
            && Lookup(TableOf(Latest(t), k), id) ==
               if id in TableOf(Rows(s.pending), k) || WrittenBy(s.flights[1..], k, id)
                  || id !in TableOf(Rows(s.flights[0].changes), k)
               then Lookup(TableOf(Latest(s), k), id)
               else Lookup(TableOf(s.db, k), id)
  {
    var t := StoreStep(s, e);
    assert Latest(s) == Overlay(Pile(Overlay(s.db, Rows(s.flights[0].changes)), s.flights[1..]), Rows(s.pending));
    assert Latest(t) == Overlay(Pile(s.db, s.flights[1..]), Rows(s.pending));
    WithoutBatch(s.db, Rows(s.flights[0].changes), s.flights[1..], Rows(s.pending), k, id);
    hide Latest, Rows, Pile, WrittenBy, Overlay, TableOf, Lookup;
  }

  lemma WithoutBatch(db: Tables, batch: Tables, later: seq<Flight>, pending: Tables, k: Kind, id: string)
    ensures Lookup(TableOf(Overlay(Pile(db, later), pending), k), id) ==
            if id in TableOf(pending, k) || WrittenBy(later, k, id) || id !in TableOf(batch, k)
            then Lookup(TableOf(Overlay(Pile(Overlay(db, batch), later), pending), k), id)
            else Lookup(TableOf(db, k), id)
  {
    hide Pile, WrittenBy;
    PileAt(Overlay(db, batch), later, k, id);
    PileAt(db, later, k, id);
    OverlayAt(Pile(db, later), pending, k, id);
    OverlayAt(Pile(Overlay(db, batch), later), pending, k, id);
    OverlayAt(db, batch, k, id);
    hide Overlay, TableOf, Lookup;
  }

  lemma OverlayAt(a: Tables, b: Tables, k: Kind, id: string)
    ensures Lookup(TableOf(Overlay(a, b), k), id) ==
            if id in TableOf(b, k) then Lookup(TableOf(b, k), id) else Lookup(TableOf(a, k), id)
  {
  }

  /** A key has its last write, or what was below the pile. */
  lemma {:induction false} PileAt(t: Tables, fs: seq<Flight>, k: Kind, id: string)
    ensures Lookup(TableOf(Pile(t, fs), k), id) ==
            if WrittenBy(fs, k, id) then Lookup(TableOf(Pile(NO_ROWS, fs), k), id) else Lookup(TableOf(t, k), id)
    decreases |fs|
  {
    if fs != [] {
      var r := Rows(fs[0].changes);
      PileAt(Overlay(t, r), fs[1..], k, id);
      PileAt(Overlay(NO_ROWS, r), fs[1..], k, id);
      WrittenByFirst(fs, k, id);
      OverlayAt(t, r, k, id);
      OverlayAt(NO_ROWS, r, k, id);
      hide Rows, WrittenBy, Overlay, TableOf, Lookup;
    }
  }

  lemma WrittenByFirst(fs: seq<Flight>, k: Kind, id: string)
    requires fs != []
    ensures WrittenBy(fs, k, id) <==> id in TableOf(Rows(fs[0].changes), k) || WrittenBy(fs[1..], k, id)
  {
    if j :| 0 <= j < |fs| && id in TableOf(Rows(fs[j].changes), k) {
      assert j > 0 ==> fs[1..][j - 1] == fs[j];
    }
    assert forall j :: 0 <= j < |fs| - 1 ==> fs[1..][j] == fs[j + 1];
  }

  const NO_ROWS := Tables(map[], map[], map[])

  /** What the commits in flight will write. */
  function InFlight(s: Store): Tables {
    Pile(NO_ROWS, s.flights)
  }

  lemma MapOverlays(a: map<string, Bytes>, b: map<string, Bytes>, c: map<string, Bytes>)
    ensures (a + b) + c == a + (b + c)
  {
  }

  lemma OverlayAssociates(a: Tables, b: Tables, c: Tables)
    ensures Overlay(Overlay(a, b), c) == Overlay(a, Overlay(b, c))
  {
    MapOverlays(a.sessions, b.sessions, c.sessions);
    MapOverlays(a.senderKeys, b.senderKeys, c.senderKeys);
    MapOverlays(a.unprocessed, b.unprocessed, c.unprocessed);
  }

  lemma {:induction false} PileIsOverlay(t: Tables, u: Tables, fs: seq<Flight>)
    ensures Pile(Overlay(t, u), fs) == Overlay(t, Pile(u, fs))
    decreases |fs|
  {
    if fs != [] {
      var r := Rows(fs[0].changes);
      OverlayAssociates(t, u, r);
      hide Overlay, Rows;
      PileIsOverlay(t, Overlay(u, r), fs[1..]);
    }
  }

  lemma LatestIsOverlay(s: Store)
    ensures Latest(s) == Overlay(Overlay(s.db, InFlight(s)), Rows(s.pending))
    ensures s.flights == [] ==> InFlight(s) == NO_ROWS
  {
    assert Overlay(s.db, NO_ROWS) == s.db;
    PileIsOverlay(s.db, NO_ROWS, s.flights);
  }

  /** A read gives the latest write, except exactly while the newest write of
      that key is in flight and differs from the committed row: a commit leaves
      its changes visible in neither map until the database has answered. */
  lemma ReadSeesLatest(s: Store, id: string)
    requires CacheCoherent(s)
    ensures ReadSession(s, id) == Lookup(Latest(s).sessions, id) <==>
              || id in s.pending.sessions
              || id !in InFlight(s).sessions
              || Lookup(s.db.sessions, id) == Lookup(InFlight(s).sessions, id)
    ensures s.flights == [] ==> ReadSession(s, id) == Lookup(Latest(s).sessions, id)
  {
    LatestIsOverlay(s);
    hide Latest, InFlight;
    assert id in s.sessions <==> id in FromDB(s.sessions);
  }

  lemma ReadSenderKeySeesLatest(s: Store, id: string)
    requires CacheCoherent(s)
    ensures ReadSenderKey(s, id) == Lookup(Latest(s).senderKeys, id) <==>
              || id in s.pending.senderKeys
              || id !in InFlight(s).senderKeys
              || Lookup(s.db.senderKeys, id) == Lookup(InFlight(s).senderKeys, id)
    ensures s.flights == [] ==> ReadSenderKey(s, id) == Lookup(Latest(s).senderKeys, id)
  {
    LatestIsOverlay(s);
    hide Latest, InFlight;
    assert id in s.senderKeys <==> id in FromDB(s.senderKeys);
  }

  /** Hydration included: what a get returns is what the store holds afterwards. */
  lemma GetAnswersLatest(s: Store, c: Caller, id: string)
    requires StoreInv(s) && InBody(s, c) && s.flights == []
    ensures ReadSession(s, id) == Lookup(Latest(StoreStep(s, GetRow(c, SessionKind, id))).sessions, id)
    ensures ReadSenderKey(s, id) == Lookup(Latest(StoreStep(s, GetRow(c, SenderKeyKind, id))).senderKeys, id)
  {
    ReadSeesLatest(s, id);
    ReadSenderKeySeesLatest(s, id);
    StepRefinesSimple(s, GetRow(c, SessionKind, id));
    StepRefinesSimple(s, GetRow(c, SenderKeyKind, id));
  }

  /** Where every kind of change is buffered, at most one commit is in flight, and
      only a caller that has finished its body has one. */
  lemma BufferedZoneOneCommit(s: Store, e: StoreEvent)
    requires StoreInv(s) && CanStep(s, e)
    requires s.lock.currentZone.Some? && Buffers(s.lock.currentZone.value)
    ensures |s.flights| <= 1
    ensures e.Committed? ==> s.lock.phase[e.caller] == Settling(s.lock.currentZone.value, true)
  {
    CommitsOfOneCaller(s);
    var callers := seq(|s.flights|, i requires 0 <= i < |s.flights| => s.flights[i].caller);
    DistinctCount(callers);
    if s.flights != [] {
      assert ToSet(callers) == {callers[0]};
    }
  }

  lemma CommitsOfOneCaller(s: Store)
    requires StoreInv(s)
    requires s.lock.currentZone.Some? && Buffers(s.lock.currentZone.value)
    ensures forall i :: 0 <= i < |s.flights| ==>
              && s.flights[i].caller in s.lock.phase
              && s.lock.phase[s.flights[i].caller] == Settling(s.lock.currentZone.value, true)
    ensures forall i, j :: 0 <= i < j < |s.flights| ==> s.flights[i].caller == s.flights[j].caller
  {
    forall i | 0 <= i < |s.flights|
      ensures s.flights[i].caller in s.lock.phase
      ensures s.lock.phase[s.flights[i].caller] == Settling(s.lock.currentZone.value, true)
    {
      assert s.flights[i].caller in InsideCallers(s.lock.phase);
    }
    assert forall i :: 0 <= i < |s.flights| ==> s.lock.phase[s.flights[i].caller].Finisher();
  }

  /** There rows and cached values change only by the whole commit of a caller that
      has finished its body: nothing is committed half. */
  lemma BufferedZoneCommitsWhole(s: Store, e: StoreEvent)
    requires StoreInv(s) && CanStep(s, e)
    requires s.lock.currentZone.Some? && Buffers(s.lock.currentZone.value)
    ensures var t := StoreStep(s, e);
            && t.db == (if e.Committed? then Overlay(s.db, Rows(s.flights[0].changes)) else s.db)
            && FromDB(t.sessions) == t.db.sessions
            && FromDB(t.senderKeys) == t.db.senderKeys
            && (t.flights != s.flights ==> e.Committed? || e.CommitRejected? || (e.Return? && s.lock.depth == 1))
  {
    StepKeepsCoherent(s, e);
    hide Latest;
  }

  /** And the commit of the last holder publishes all that had been written when
      its body returned. */
  lemma CommitPublishesAllWrites(s: Store, c: Caller)
    requires StoreInv(s) && CanStep(s, Return(c)) && s.lock.depth == 1 && s.pending != NO_CHANGES
    ensures var t := StoreStep(s, Return(c));
            |t.flights| == 1 && t.flights[0].caller == c && Overlay(t.db, Rows(t.flights[0].changes)) == Latest(s)
  {
    AloneMeansNoFlights(s, c);
  }

  /** A put that the zone does not buffer is in flight at once, and until the
      database has answered a read gives the committed row instead. */
  lemma FlushedWriteIsMissed(s: Store, c: Caller, id: string, v: Bytes)
    requires StoreInv(s) && InBody(s, c) && !Supports(s.lock.phase[c].zone, SessionKind)
    ensures var t := StoreStep(s, PutRow(c, SessionKind, id, v));
            && ReadSession(t, id) == Lookup(s.db.sessions, id)
            && Lookup(Latest(t).sessions, id) == Some(v)
  {
    PutWrites(s, c, SessionKind, id, v);
    var t := StoreStep(s, PutRow(c, SessionKind, id, v));
    assert id in s.sessions <==> id in FromDB(s.sessions);
    assert id in Put(s.pending, SessionKind, id, v).sessions.Keys;
    hide Latest;
  }

  /** That is reached with the first write of all. */
  lemma FirstWriteIsMissed(c: Caller, z: Zone, id: string, v: Bytes)
    requires !z.pendingSessions
    ensures var es := [Enter(c, z), PutRow(c, SessionKind, id, v)];
            && StoreRun(Loaded(NO_ROWS), es)
            && var t := StoreAfter(Loaded(NO_ROWS), es);
            ReadSession(t, id) == None && Lookup(Latest(t).sessions, id) == Some(v)
  {
    var s := Loaded(NO_ROWS);
    LoadedIsGood(NO_ROWS);
    var s1 := StoreStep(s, Enter(c, z));
    StoreStepKeepsInv(s, Enter(c, z));
    assert InBody(s1, c) && s1.db == NO_ROWS;
    FlushedWriteIsMissed(s1, c, id, v);
    hide StoreInv, Latest, StoreStep, CanStep, ReadSession;
    Prepend(s1, PutRow(c, SessionKind, id, v), []);
    Prepend(s, Enter(c, z), [PutRow(c, SessionKind, id, v)]);
  }
}
