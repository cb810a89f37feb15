/** The zone lock and the pending maps, as the class that holds them.  Each
    method is the code between two `await`s; `State()` is what the modules
    ZoneLock and PendingChanges reason about. */
module SignalProtocolStores {
  import opened Common
  import opened ZoneLock
  import opened PendingChanges
  import opened StoreRefinement

  class SignalProtocolStore {
    var currentZone: Option<Zone>
    var currentZoneDepth: int
    var zoneQueue: seq<QueueEntry>

    var pendingSessions: map<string, CacheEntry>
    var pendingSenderKeys: map<string, CacheEntry>
    var pendingUnprocessed: map<string, Bytes>
    var sessions: map<string, CacheEntry>
    var senderKeys: map<string, CacheEntry>

    // The database: its rows, and the write calls it has not answered yet.
    var rows: Tables
    var unanswered: seq<Flight>

    // Where the promise of each call of withZone stands, and the queue's history.
    ghost var phase: map<Caller, Phase>
    ghost var queued: seq<Caller>
    ghost var served: seq<Caller>

    ghost function LockState(): Lock
      reads this
    {
      Lock(currentZone, currentZoneDepth, zoneQueue, phase, queued, served)
    }

    ghost function State(): Store
      reads this
    {
      Store(LockState(), sessions, senderKeys,
            Pending(pendingSessions, pendingSenderKeys, pendingUnprocessed),
            unanswered, rows)
    }

    constructor (db: Tables)
      ensures State() == Loaded(db)
      ensures StoreInv(State())
    {
      currentZone, currentZoneDepth, zoneQueue := None, 0, [];
      pendingSessions, pendingSenderKeys, pendingUnprocessed := map[], map[], map[];
      sessions := map k | k in db.sessions :: CacheEntry(false, db.sessions[k]);
      senderKeys := map k | k in db.senderKeys :: CacheEntry(false, db.senderKeys[k]);
      rows, unanswered := db, [];
      phase, queued, served := map[], [], [];
      new;
      LoadedIsGood(db);
    }

    method EnterZone(c: Caller, zone: Zone)
      modifies this`currentZone, this`currentZoneDepth, this`phase
      ensures LockState() == ZoneLock.EnterZone(old(LockState()), c, zone)
    {
      currentZoneDepth := currentZoneDepth + 1;
      if currentZoneDepth == 1 {
        currentZone := Some(zone);
      }
      phase := phase[c := Running(zone)];
    }

    /** The synchronous part of `withZone`: wait in the queue, or enter. */
    method WithZone(c: Caller, zone: Zone)
      modifies this`currentZone, this`currentZoneDepth, this`zoneQueue, this`phase, this`queued
      ensures LockState() == ZoneLock.WithZone(old(LockState()), c, zone)
    {
      if currentZone.Some? && currentZone.value != zone {
        zoneQueue := zoneQueue + [QueueEntry(zone, c)];
        phase := phase[c := Waiting(zone)];
        queued := queued + [c];
        return;
      }
      EnterZone(c, zone);
    }

    method LeaveZone(zone: Zone)
      requires currentZone == Some(zone) && currentZoneDepth > 0
      modifies this`currentZone, this`currentZoneDepth, this`zoneQueue, this`phase, this`queued, this`served
      ensures LockState() == ZoneLock.LeaveZone(old(LockState()))
    {
      currentZoneDepth := currentZoneDepth - 1;
      if currentZoneDepth != 0 {
        return;
      }
      currentZone := None;
      if zoneQueue == [] {
        return;
      }
      ghost var queue := zoneQueue;
      var next := zoneQueue[0];
      zoneQueue := zoneQueue[1..];
      var toEnter := [next];
      while zoneQueue != [] && zoneQueue[0].zone == next.zone
        invariant toEnter + zoneQueue == queue
        invariant 0 < |toEnter| <= SameZonePrefix(queue, next.zone)
        invariant currentZone == None && currentZoneDepth == 0
        invariant phase == old(phase) && queued == old(queued) && served == old(served)
        decreases |zoneQueue|
      {
        assert queue[|toEnter|] == zoneQueue[0];
        toEnter := toEnter + [zoneQueue[0]];
        zoneQueue := zoneQueue[1..];
      }
      assert zoneQueue != [] ==> queue[|toEnter|] == zoneQueue[0];
      assert |toEnter| == SameZonePrefix(queue, next.zone);
      assert toEnter == queue[..|toEnter|] && zoneQueue == queue[|toEnter|..];
      ghost var released := LockState();
      assert toEnter[0..] == toEnter;
      for i := 0 to |toEnter|
        invariant RunCallbacks(LockState(), toEnter[i..]) == RunCallbacks(released, toEnter)
      {
        assert toEnter[i..][1..] == toEnter[i + 1..];
        served := served + [toEnter[i].caller];
        WithZone(toEnter[i].caller, toEnter[i].zone);
      }
    }

    /** `withZone` called with a new body. */
    method Enter(c: Caller, zone: Zone)
      requires StoreInv(State()) && CanStep(State(), StoreEvent.Enter(c, zone))
      modifies this
      ensures State() == StoreStep(old(State()), StoreEvent.Enter(c, zone))
      ensures StoreInv(State())
    {
      StoreStepKeepsInv(State(), StoreEvent.Enter(c, zone));
      WithZone(c, zone);
    }

    /** The part of `commitZoneChanges` before its `await`. */
    method CommitZoneChanges(c: Caller)
      modifies this`pendingSessions, this`pendingSenderKeys, this`pendingUnprocessed, this`unanswered
      ensures State() == StartCommit(old(State()), c)
    {
      var changes := Pending(pendingSessions, pendingSenderKeys, pendingUnprocessed);
      if changes.senderKeys == map[] && changes.sessions == map[] && changes.unprocessed == map[] {
        return;
      }
      pendingSenderKeys := map[];
      pendingSessions := map[];
      pendingUnprocessed := map[];
      unanswered := unanswered + [Flight(c, changes)];
    }

    method RevertZoneChanges()
      modifies this`pendingSessions, this`pendingSenderKeys, this`pendingUnprocessed
      ensures State() == old(State()).(pending := NO_CHANGES)
    {
      pendingSenderKeys := map[];
      pendingSessions := map[];
      pendingUnprocessed := map[];
    }

    ghost function BodyEnds(c: Caller, ok: bool): StoreEvent {
      if ok then Return(c) else Throw(c)
    }

    /** `withZone` after its body: commit or revert at depth one, else leave. */
    method FinishBody(c: Caller, ok: bool)
      requires StoreInv(State()) && CanStep(State(), BodyEnds(c, ok))
      modifies this
      ensures State() == StoreStep(old(State()), BodyEnds(c, ok))
      ensures StoreInv(State())
    {
      StoreStepKeepsInv(State(), BodyEnds(c, ok));
      BodyEndStep(State(), c, ok);
      hide StoreInv, Inv, CanStep, StoreStep, StartCommit, Depart, InBody;
      ghost var zone := phase[c].zone;
      if currentZoneDepth == 1 {
        if ok {
          CommitZoneChanges(c);
        } else {
          RevertZoneChanges();
        }
        phase := phase[c := Settling(zone, ok)];
      } else {
        Leave(c);
      }
    }

    /** The database has run the oldest write call, and the part of
        `commitZoneChanges` after its `await` runs. */
    method DatabaseAnswers()
      requires unanswered != []
      modifies this`rows, this`unanswered, this`sessions, this`senderKeys
      ensures State() == CompleteCommit(old(State()))
    {
      var changes := unanswered[0].changes;
      rows := Overlay(rows, Rows(changes));
      unanswered := unanswered[1..];
      sessions := sessions + changes.sessions;
      senderKeys := senderKeys + changes.senderKeys;
    }

    /** A commit made inside a body completes; the body goes on. */
    method BodyCommitCompleted(c: Caller)
      requires StoreInv(State()) && CanStep(State(), Committed(c)) && phase[c].Running?
      modifies this
      ensures State() == StoreStep(old(State()), Committed(c))
      ensures StoreInv(State())
    {
      StoreStepKeepsInv(State(), Committed(c));
      DatabaseAnswers();
    }

    /** The commit at the end of `withZone` completes, and the caller leaves. */
    method ZoneCommitCompleted(c: Caller)
      requires StoreInv(State()) && CanStep(State(), Committed(c)) && phase[c].Settling?
      modifies this
      ensures State() == StoreStep(old(State()), Committed(c))
      ensures StoreInv(State())
    {
      StoreStepKeepsInv(State(), Committed(c));
      ZoneCommitStep(State(), c);
      hide StoreInv, Inv, CanStep, StoreStep, CompleteCommit, Depart;
      DatabaseAnswers();
      Leave(c);
    }

    /** The `await` of an empty commit or of a revert ends, and the caller leaves. */
    method NothingSettled(c: Caller)
      requires StoreInv(State()) && CanStep(State(), Settled(c))
      modifies this
      ensures State() == StoreStep(old(State()), Settled(c))
      ensures StoreInv(State())
    {
      StoreStepKeepsInv(State(), Settled(c));
      Leave(c);
    }

    /** The database rejects the oldest write call.  At the end of `withZone` the
        rejection escapes before `leaveZone`; inside a body it is thrown there. */
    method CommitIsRejected(c: Caller)
      requires StoreInv(State()) && CanStep(State(), CommitRejected(c))
      modifies this
      ensures State() == StoreStep(old(State()), CommitRejected(c))
      ensures StoreInv(State())
    {
      StoreStepKeepsInv(State(), CommitRejected(c));
      unanswered := unanswered[1..];
      if phase[c].Settling? {
        phase := phase[c := Stuck(phase[c].zone)];
      }
    }

    method Leave(c: Caller)
      requires Inv(LockState()) && c in phase && phase[c].Inside()
      modifies this`currentZone, this`currentZoneDepth, this`zoneQueue, this`phase, this`queued, this`served
      ensures LockState() == Depart(old(LockState()), c)
    {
      InsideMembers(phase);
      phase := phase[c := Left];
      LeaveZone(currentZone.value);
    }

    // ------------------------------------------------------------ bodies

    method StoreSession(c: Caller, zone: Zone, id: string, record: Bytes)
      requires StoreInv(State()) && InBody(State(), c) && phase[c].zone == zone
      modifies this
      ensures State() == StoreStep(old(State()), PutRow(c, SessionKind, id, record))
      ensures StoreInv(State())
      ensures zone.pendingSessions ==> ReadSession(State(), id) == Some(record)
    {
      StoreStepKeepsInv(State(), PutRow(c, SessionKind, id, record));
      pendingSessions := pendingSessions[id := CacheEntry(true, record)];
      if !zone.pendingSessions {
        CommitZoneChanges(c);
      }
    }

    method SaveSenderKey(c: Caller, zone: Zone, id: string, record: Bytes)
      requires StoreInv(State()) && InBody(State(), c) && phase[c].zone == zone
      modifies this
      ensures State() == StoreStep(old(State()), PutRow(c, SenderKeyKind, id, record))
      ensures StoreInv(State())
      ensures zone.pendingSenderKeys ==> ReadSenderKey(State(), id) == Some(record)
    {
      StoreStepKeepsInv(State(), PutRow(c, SenderKeyKind, id, record));
      pendingSenderKeys := pendingSenderKeys[id := CacheEntry(true, record)];
      if !zone.pendingSenderKeys {
        CommitZoneChanges(c);
      }
    }

    method AddUnprocessed(c: Caller, zone: Zone, id: string, data: Bytes)
      requires StoreInv(State()) && InBody(State(), c) && phase[c].zone == zone
      modifies this
      ensures State() == StoreStep(old(State()), PutRow(c, UnprocessedKind, id, data))
      ensures StoreInv(State())
    {
      StoreStepKeepsInv(State(), PutRow(c, UnprocessedKind, id, data));
      pendingUnprocessed := pendingUnprocessed[id := data];
      if !zone.pendingUnprocessed {
        CommitZoneChanges(c);
      }
    }

    method LoadSession(c: Caller, id: string) returns (record: Option<Bytes>)
      requires StoreInv(State()) && InBody(State(), c)
      modifies this`sessions
      ensures State() == StoreStep(old(State()), GetRow(c, SessionKind, id))
      ensures StoreInv(State())
      ensures record == ReadSession(old(State()), id)
      ensures unanswered == [] ==> record == Lookup(Latest(State()).sessions, id)
    {
      StoreStepKeepsInv(State(), GetRow(c, SessionKind, id));
      if unanswered == [] {
        GetAnswersLatest(State(), c, id);
      }
      hide StoreInv, Latest;
      var entries := if id in pendingSessions then pendingSessions else sessions;
      if id !in entries {
        return None;
      }
      var entry := entries[id];
      assert entries[id := entry] == entries;
      if !entry.hydrated {
        // Pending entries are always hydrated, so the entry is a cached one.
        sessions := sessions[id := entry.(hydrated := true)];
      }
      return Some(entry.fromDB);
    }

    method GetSenderKey(c: Caller, id: string) returns (record: Option<Bytes>)
      requires StoreInv(State()) && InBody(State(), c)
      modifies this`senderKeys
      ensures State() == StoreStep(old(State()), GetRow(c, SenderKeyKind, id))
      ensures StoreInv(State())
      ensures record == ReadSenderKey(old(State()), id)
      ensures unanswered == [] ==> record == Lookup(Latest(State()).senderKeys, id)
    {
      StoreStepKeepsInv(State(), GetRow(c, SenderKeyKind, id));
      if unanswered == [] {
        GetAnswersLatest(State(), c, id);
      }
      hide StoreInv, Latest;
      var entries := if id in pendingSenderKeys then pendingSenderKeys else senderKeys;
      if id !in entries {
        return None;
      }
      var entry := entries[id];
      if !entry.hydrated {
        senderKeys := senderKeys[id := entry.(hydrated := true)];
      }
      return Some(entry.fromDB);
    }

    /** The pending sessions take precedence over the cached ones. */
    method GetAllSessions() returns (union: map<string, CacheEntry>)
      requires StoreInv(State())
      ensures unanswered == [] ==> FromDB(union) == Latest(State()).sessions
    {
      FromDBUnion(sessions, pendingSessions);
      union := sessions + pendingSessions;
    }
  }
}
