/** Sessions, sender keys and unprocessed messages behind the zone lock.

    Writes go to the pending maps; the last holder of a zone commits them in one
    database transaction, or discards them if its body failed.  A commit moves
    the pending maps out, awaits the database, and fills the caches afterwards,
    so several commits can be in flight.  The database runs the write calls one
    at a time, in the order they were issued, each in a transaction. */
module PendingChanges {
  import opened Common
  import opened ZoneLock

  datatype CacheEntry = CacheEntry(hydrated: bool, fromDB: Bytes)

  /** Database rows, or any set of changes to them. */
  datatype Tables = Tables(
    sessions: map<string, Bytes>,
    senderKeys: map<string, Bytes>,
    unprocessed: map<string, Bytes>)

  datatype Pending = Pending(
    sessions: map<string, CacheEntry>,
    senderKeys: map<string, CacheEntry>,
    unprocessed: map<string, Bytes>)

  /** A commit that awaits the database. */
  datatype Flight = Flight(caller: Caller, changes: Pending)

  datatype Store = Store(
    lock: Lock,
    sessions: map<string, CacheEntry>,
    senderKeys: map<string, CacheEntry>,
    pending: Pending,
    flights: seq<Flight>,
    db: Tables)

  const NO_CHANGES := Pending(map[], map[], map[])

  function FromDB(m: map<string, CacheEntry>): map<string, Bytes> {
    map k | k in m :: m[k].fromDB
  }

  function Rows(p: Pending): Tables {
    Tables(FromDB(p.sessions), FromDB(p.senderKeys), p.unprocessed)
  }

  function Overlay(a: Tables, b: Tables): Tables {
    Tables(a.sessions + b.sessions, a.senderKeys + b.senderKeys, a.unprocessed + b.unprocessed)
  }

  function Lookup(m: map<string, Bytes>, id: string): Option<Bytes> {
    if id in m then Some(m[id]) else None
  }

  // ---------------------------------------------------------------- steps

  /** The part of `commitZoneChanges` before its `await`. */
  function StartCommit(s: Store, c: Caller): Store {
    if s.pending == NO_CHANGES then s
    else s.(pending := NO_CHANGES, flights := s.flights + [Flight(c, s.pending)])
  }

  /** The transaction and the part of `commitZoneChanges` after the `await`. */
  function CompleteCommit(s: Store): Store
    requires s.flights != []
  {
    var p := s.flights[0].changes;
    s.(db := Overlay(s.db, Rows(p)),
       sessions := s.sessions + p.sessions,
       senderKeys := s.senderKeys + p.senderKeys,
       flights := s.flights[1..])
  }

  function ReadSession(s: Store, id: string): Option<Bytes> {
    if id in s.pending.sessions then Some(s.pending.sessions[id].fromDB)
    else if id in s.sessions then Some(s.sessions[id].fromDB)
    else None
  }

  function ReadSenderKey(s: Store, id: string): Option<Bytes> {
    if id in s.pending.senderKeys then Some(s.pending.senderKeys[id].fromDB)
    else if id in s.senderKeys then Some(s.senderKeys[id].fromDB)
    else None
  }

  /** `loadSession` replaces an entry by its hydrated form in the map it came from. */
  function LoadSession(s: Store, id: string): Store {
    if id in s.pending.sessions then
      s.(pending := s.pending.(sessions := s.pending.sessions[id := s.pending.sessions[id].(hydrated := true)]))
    else if id in s.sessions then
      s.(sessions := s.sessions[id := s.sessions[id].(hydrated := true)])
    else s
  }

  /** `getSenderKey` puts the hydrated form into the cache, even when the entry
      came from the pending map. */
  function GetSenderKey(s: Store, id: string): Store {
    var m := if id in s.pending.senderKeys then s.pending.senderKeys else s.senderKeys;
    if id in m && !m[id].hydrated then
      s.(senderKeys := s.senderKeys[id := m[id].(hydrated := true)])
    else s
  }

  datatype Kind = SessionKind | SenderKeyKind | UnprocessedKind

  predicate Supports(z: Zone, k: Kind) {
    match k
    case SessionKind => z.pendingSessions
    case SenderKeyKind => z.pendingSenderKeys
    case UnprocessedKind => z.pendingUnprocessed
  }

  function Put(p: Pending, k: Kind, id: string, v: Bytes): Pending {
    match k
    case SessionKind => p.(sessions := p.sessions[id := CacheEntry(true, v)])
    case SenderKeyKind => p.(senderKeys := p.senderKeys[id := CacheEntry(true, v)])
    case UnprocessedKind => p.(unprocessed := p.unprocessed[id := v])
  }

  /** One step of one caller.  A body is any interleaving of puts and gets; each
      `storeSession`, `saveSenderKey`, `addUnprocessed`, `loadSession` and
      `getSenderKey` is itself a call of `withZone` with a one-step body. */
  datatype StoreEvent =
    | Enter(caller: Caller, zone: Zone)
    | PutRow(caller: Caller, kind: Kind, id: string, value: Bytes)
    | GetRow(caller: Caller, kind: Kind, id: string)
    | Return(caller: Caller)
    | Throw(caller: Caller)
    | Committed(caller: Caller)       // the oldest commit succeeds
    | CommitRejected(caller: Caller)  // the oldest commit fails
    | Settled(caller: Caller)         // the await of an empty commit or of a revert ends

  predicate Awaiting(s: Store, c: Caller) {
    exists i :: 0 <= i < |s.flights| && s.flights[i].caller == c
  }

  predicate InBody(s: Store, c: Caller) {
    c in s.lock.phase && s.lock.phase[c].Running? && !Awaiting(s, c)
  }

  predicate CanStep(s: Store, e: StoreEvent) {
    match e
    case Enter(c, z) => Enabled(s.lock, Call(c, z))
    case PutRow(c, _, _, _) => InBody(s, c)
    case GetRow(c, k, _) => InBody(s, c) && !k.UnprocessedKind?
    case Return(c) => InBody(s, c)
    case Throw(c) => InBody(s, c)
    case Committed(c) => s.flights != [] && s.flights[0].caller == c
    case CommitRejected(c) => s.flights != [] && s.flights[0].caller == c
    case Settled(c) => Enabled(s.lock, Settle(c)) && !Awaiting(s, c)
  }

  /** What the step does to the lock, if anything. */
  function LockEvent(s: Store, e: StoreEvent): (l: Option<Event>)
    requires CanStep(s, e)
    ensures l.Some? ==> Enabled(s.lock, l.value)
  {
    var committing := e.caller in s.lock.phase && s.lock.phase[e.caller].Settling? && s.lock.phase[e.caller].ok;
    match e
    case Enter(c, z) => Some(Call(c, z))
    case PutRow(_, _, _, _) => None
    case GetRow(_, _, _) => None
    case Return(c) => Some(Finish(c, true))
    case Throw(c) => Some(Finish(c, false))
    case Committed(c) => if committing then Some(Settle(c)) else None
    case CommitRejected(c) => if committing then Some(SettleFails(c)) else None
    case Settled(c) => Some(Settle(c))
  }

  function LockAfter(s: Store, e: StoreEvent): Lock
    requires CanStep(s, e)
  {
    var l := LockEvent(s, e);
    if l.Some? then Step(s.lock, l.value) else s.lock
  }

  /** What the step does to everything but the lock. */
  function DataAfter(s: Store, e: StoreEvent): Store
    requires CanStep(s, e)
  {
    match e
    case Enter(c, z) => s
    case PutRow(c, k, id, v) =>
      var t := s.(pending := Put(s.pending, k, id, v));
      if Supports(s.lock.phase[c].zone, k) then t else StartCommit(t, c)
    case GetRow(c, k, id) => if k.SessionKind? then LoadSession(s, id) else GetSenderKey(s, id)
    case Return(c) => if s.lock.depth == 1 then StartCommit(s, c) else s
    case Throw(c) => if s.lock.depth == 1 then s.(pending := NO_CHANGES) else s
    case Committed(c) => CompleteCommit(s)
    case CommitRejected(c) => s.(flights := s.flights[1..])
    case Settled(c) => s
  }

  function StoreStep(s: Store, e: StoreEvent): Store
    requires CanStep(s, e)
  {
    DataAfter(s, e).(lock := LockAfter(s, e))
  }

  predicate StoreRun(s: Store, es: seq<StoreEvent>)
    decreases |es|
  {
    es == [] || (CanStep(s, es[0]) && StoreRun(StoreStep(s, es[0]), es[1..]))
  }

  function StoreAfter(s: Store, es: seq<StoreEvent>): Store
    requires StoreRun(s, es)
    decreases |es|
  {
    if es == [] then s else StoreAfter(StoreStep(s, es[0]), es[1..])
  }

  /** A store whose caches were filled from the rows `db`. */
  function Loaded(db: Tables): Store {
    Store(FREE,
          map k | k in db.sessions :: CacheEntry(false, db.sessions[k]),
          map k | k in db.senderKeys :: CacheEntry(false, db.senderKeys[k]),
          NO_CHANGES, [], db)
  }

  // ------------------------------------------------------------ invariant

  ghost predicate AllHydrated(p: Pending) {
    && (forall k :: k in p.sessions ==> p.sessions[k].hydrated)
    && (forall k :: k in p.senderKeys ==> p.senderKeys[k].hydrated)
  }

  /** The caches hold the rows; what is pending or in flight is hydrated. */
  ghost predicate CacheCoherent(s: Store) {
    && FromDB(s.sessions) == s.db.sessions
    && FromDB(s.senderKeys) == s.db.senderKeys
    && AllHydrated(s.pending)
    && (forall i :: 0 <= i < |s.flights| ==> AllHydrated(s.flights[i].changes))
  }

  /** Commits in flight belong to distinct callers, all still inside the zone;
      where the zone buffers everything, only a finishing caller has one. */
  ghost predicate FlightsInside(s: Store) {
    && (forall i :: 0 <= i < |s.flights| ==>
          var c := s.flights[i].caller;
          && c in s.lock.phase
          && (s.lock.phase[c].Running? || (s.lock.phase[c].Settling? && s.lock.phase[c].ok))
          && (Buffers(s.lock.phase[c].zone) ==> s.lock.phase[c].Settling?))
    && (forall i, j :: 0 <= i < j < |s.flights| ==> s.flights[i].caller != s.flights[j].caller)
  }

  predicate Buffers(z: Zone) {
    z.pendingSessions && z.pendingSenderKeys && z.pendingUnprocessed
  }

  ghost predicate StoreInv(s: Store) {
    Inv(s.lock) && OneFinisher(s.lock) && CacheCoherent(s) && FlightsInside(s)
  }

  lemma LoadedIsGood(db: Tables)
    ensures StoreInv(Loaded(db))
  {
    assert InsideCallers(map[]) == {};
  }

  // ----------------------------------------------------- preservation

  lemma FromDBUpdate(m: map<string, CacheEntry>, id: string, e: CacheEntry)
    ensures FromDB(m[id := e]) == FromDB(m)[id := e.fromDB]
  {
  }

  lemma FromDBUnion(a: map<string, CacheEntry>, b: map<string, CacheEntry>)
    ensures FromDB(a + b) == FromDB(a) + FromDB(b)
  {
  }

  /** Hydrating an entry leaves the values of its map alone. */
  lemma HydrateKeepsValues(m: map<string, CacheEntry>, id: string)
    requires id in m
    ensures FromDB(m[id := m[id].(hydrated := true)]) == FromDB(m)
  {
  }

  lemma GetKeepsCoherent(s: Store, id: string)
    requires CacheCoherent(s)
    ensures CacheCoherent(LoadSession(s, id))
    ensures CacheCoherent(GetSenderKey(s, id))
  {
    if id in s.sessions { HydrateKeepsValues(s.sessions, id); }
    if id in s.senderKeys { HydrateKeepsValues(s.senderKeys, id); }
  }

  lemma CompleteKeepsCoherent(s: Store)
    requires CacheCoherent(s) && s.flights != []
    ensures CacheCoherent(CompleteCommit(s))
  {
    var p := s.flights[0].changes;
    FromDBUnion(s.sessions, p.sessions);
    FromDBUnion(s.senderKeys, p.senderKeys);
  }

  lemma StepKeepsCoherent(s: Store, e: StoreEvent)
    requires CacheCoherent(s) && CanStep(s, e)
    ensures CacheCoherent(StoreStep(s, e))
  {
    match e
    case GetRow(c, k, id) => GetKeepsCoherent(s, id);
    case Committed(c) => CompleteKeepsCoherent(s);
    case PutRow(c, k, id, v) =>
      assert AllHydrated(Put(s.pending, k, id, v));
    case _ =>
  }

  lemma StepKeepsFlights(s: Store, e: StoreEvent)
    requires StoreInv(s) && CanStep(s, e)
    ensures FlightsInside(StoreStep(s, e))
  {
    hide Inv, OneFinisher, CacheCoherent;
    if e.PutRow? || e.Return? {
      WritingKeepsFlights(s, e);
    } else {
      LockKeepsOthers(s, e);
      if (e.Throw? || e.Settled?) && s.lock.depth == 1 {
        AloneMeansNoFlights(s, e.caller);
      }
      assert FlightsInside(s);
      hide StoreInv;
    }
  }

  lemma WritingKeepsFlights(s: Store, e: StoreEvent)
    requires StoreInv(s) && CanStep(s, e) && (e.PutRow? || e.Return?)
    ensures FlightsInside(StoreStep(s, e))
  {
    hide Inv, OneFinisher, CacheCoherent;
    LockKeepsOthers(s, e);
    if e.Return? && s.lock.depth == 1 {
      AloneMeansNoFlights(s, e.caller);
    }
    assert FlightsInside(s);
    hide StoreInv;
  }

  /** A lock step changes only its own caller and callers that were waiting. */
  lemma LockKeepsOthers(s: Store, e: StoreEvent)
    requires StoreInv(s) && CanStep(s, e)
    ensures forall x :: x in s.lock.phase && x != e.caller && s.lock.phase[x].Inside() ==>
              x in LockAfter(s, e).phase && LockAfter(s, e).phase[x] == s.lock.phase[x]
  {
    var l := LockEvent(s, e);
    if l.Some? && (l.value.Finish? || l.value.Settle?) && s.lock.depth == 1 {
      OnlyOneInside(s.lock, e.caller);
      InsideMembers(s.lock.phase);
    }
  }

  /** A caller that is alone in the zone, and not awaiting a commit itself,
      starts its commit or revert with no other commit in flight. */
  lemma AloneMeansNoFlights(s: Store, c: Caller)
    requires StoreInv(s) && s.lock.depth == 1
    requires c in s.lock.phase && s.lock.phase[c].Inside() && !Awaiting(s, c)
    ensures s.flights == []
  {
    assert |s.flights| > 0 ==> s.flights[0].caller != c && s.flights[0].caller in InsideCallers(s.lock.phase);
    OnlyOneInside(s.lock, c);
  }

  lemma StoreStepKeepsInv(s: Store, e: StoreEvent)
    requires StoreInv(s) && CanStep(s, e)
    ensures StoreInv(StoreStep(s, e))
  {
    var l := LockEvent(s, e);
    if l.Some? {
      StepKeepsInv(s.lock, l.value);
      StepKeepsOneFinisher(s.lock, l.value);
    }
    StepKeepsCoherent(s, e);
    StepKeepsFlights(s, e);
  }

  /** The commit of a zone completes and its caller leaves, one after the other. */
  lemma ZoneCommitStep(s: Store, c: Caller)
    requires StoreInv(s) && CanStep(s, Committed(c)) && s.lock.phase[c].Settling?
    ensures s.flights != [] && c in s.lock.phase && Inv(s.lock)
    ensures StoreStep(s, Committed(c)) == CompleteCommit(s).(lock := Depart(s.lock, c))
  {
  }

  /** The end of a body: commit or revert at depth one, else the caller leaves. */
  lemma BodyEndStep(s: Store, c: Caller, ok: bool)
    requires StoreInv(s) && InBody(s, c)
    ensures var e := if ok then Return(c) else Throw(c);
            && c in s.lock.phase && s.lock.phase[c].Running? && Inv(s.lock) && CanStep(s, e)
            && StoreStep(s, e) ==
               if s.lock.depth != 1 then s.(lock := Depart(s.lock, c))
               else (if ok then StartCommit(s, c) else s.(pending := NO_CHANGES))
                    .(lock := s.lock.(phase := s.lock.phase[c := Settling(s.lock.phase[c].zone, ok)]))
  {
  }

  lemma {:induction false} EveryStoreRunKeepsInv(s: Store, es: seq<StoreEvent>)
    requires StoreInv(s) && StoreRun(s, es)
    ensures StoreInv(StoreAfter(s, es))
    decreases |es|
  {
    if es != [] {
      StoreStepKeepsInv(s, es[0]);
      EveryStoreRunKeepsInv(StoreStep(s, es[0]), es[1..]);
    }
  }

  lemma Prepend(s: Store, e: StoreEvent, es: seq<StoreEvent>)
    requires CanStep(s, e) && StoreRun(StoreStep(s, e), es)
    ensures StoreRun(s, [e] + es)
    ensures StoreAfter(s, [e] + es) == StoreAfter(StoreStep(s, e), es)
  {
    assert ([e] + es)[1..] == es;
  }

  lemma NoSteps(s: Store)
    ensures StoreRun(s, []) && StoreAfter(s, []) == s
  {
  }
}
