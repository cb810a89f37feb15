/** What is pending when a zone is released: changes that nobody commits, or, when
    there are none, nothing that is not in the database. */
module Leftovers {
  import opened Common
  import opened ZoneLock
  import opened PendingChanges
  import opened StoreRefinement

  /** Whether a sequence of steps in zone `z` ends with buffered changes: the
      last put decides, because a put the zone does not buffer flushes all. */
  predicate EndsDirty(dirty: bool, z: Zone, es: seq<StoreEvent>)
    decreases |es|
  {
    if es == [] then dirty
    else EndsDirty(if es[0].PutRow? then Supports(z, es[0].kind) else dirty, z, es[1..])
  }

  /** While one caller awaits its commit or revert, others may enter the zone,
      write, and leave below depth one, and none of them commits.  When that
      caller then leaves, changes are pending if and only if the last put made
      meanwhile was one the zone buffers; if it was alone, the zone is released
      with those changes uncommitted. */
  lemma {:induction false} LeftoversAfterSettling(s: Store, c: Caller, es: seq<StoreEvent>)
    requires StoreInv(s) && StoreRun(s, es)
    requires c in s.lock.phase && s.lock.phase[c].Settling?
    requires forall i :: 0 <= i < |es| ==> es[i].caller != c
    ensures var t := StoreAfter(s, es);
            && StoreInv(t)
            && c in t.lock.phase && t.lock.phase[c] == s.lock.phase[c]
            && (t.pending != NO_CHANGES <==> EndsDirty(s.pending != NO_CHANGES, s.lock.phase[c].zone, es))
    decreases |es|
  {
    if es != [] {
      var e := es[0];
      var t := StoreStep(s, e);
      SettlingStep(s, c, e);
      StoreStepKeepsInv(s, e);
      LeftoversAfterSettling(t, c, es[1..]);
    }
  }

  lemma SettlingStep(s: Store, c: Caller, e: StoreEvent)
    requires StoreInv(s) && CanStep(s, e)
    requires c in s.lock.phase && s.lock.phase[c].Settling? && e.caller != c
    ensures var t := StoreStep(s, e);
            && c in t.lock.phase && t.lock.phase[c] == s.lock.phase[c]
            && (t.pending != NO_CHANGES <==>
                  if e.PutRow? then Supports(s.lock.phase[c].zone, e.kind) else s.pending != NO_CHANGES)
  {
    LockKeepsOthers(s, e);
    if (e.Return? || e.Throw?) && s.lock.depth == 1 {
      InsideMembers(s.lock.phase);
      OnlyOneInside(s.lock, c);
      assert false;
    }
    if e.GetRow? {
      var m, n := s.pending.sessions, LoadSession(s, e.id).pending.sessions;
      assert m.Keys == n.Keys;
      assert m.Keys == {} ==> m == map[];
      assert n.Keys == {} ==> n == map[];
    }
    if e.PutRow? {
      var p := Put(s.pending, e.kind, e.id, e.value);
      assert p != NO_CHANGES by {
        assert e.id in (if e.kind.UnprocessedKind? then p.unprocessed.Keys
                        else if e.kind.SessionKind? then p.sessions.Keys else p.senderKeys.Keys);
      }
    }
  }

  /** The release itself flushes nothing: the zone changes hands, or becomes
      free, with changes pending if and only if the last put made while the
      last holder was settling was one the zone buffers. */
  lemma ReleasedDirtyExactlyWhen(s: Store, c: Caller, es: seq<StoreEvent>, e: StoreEvent)
    requires StoreInv(s) && s.pending == NO_CHANGES && StoreRun(s, es)
    requires c in s.lock.phase && s.lock.phase[c].Settling?
    requires forall i :: 0 <= i < |es| ==> es[i].caller != c
    requires e == Committed(c) || e == Settled(c)
    requires CanStep(StoreAfter(s, es), e) && StoreAfter(s, es).lock.depth == 1
    ensures var t := StoreStep(StoreAfter(s, es), e);
            && t.lock.currentZone != Some(s.lock.phase[c].zone)
            && (t.pending != NO_CHANGES <==> EndsDirty(false, s.lock.phase[c].zone, es))
  {
    LeftoversAfterSettling(s, c, es);
    var m := StoreAfter(s, es);
    var l := LockEvent(m, e);
    if l == Some(Settle(c)) {
      ReleaseWakesPrefix(m.lock, c);
    } else {
      assert false;
    }
  }

  /** The tables with all the puts of a sequence of steps made in them. */
  function WithPuts(t: Tables, es: seq<StoreEvent>): Tables
    decreases |es|
  {
    if es == [] then t
    else WithPuts(if es[0].PutRow? then PutInTables(t, es[0].kind, es[0].id, es[0].value) else t, es[1..])
  }

  /** Released without buffered changes, the zone leaves nothing behind: no commit is
      in flight either, and all that anybody had written, before the last holder
      settled or meanwhile, is in the database. */
  lemma ReleasedCleanIsCommitted(s: Store, c: Caller, es: seq<StoreEvent>, e: StoreEvent)
    requires StoreInv(s) && s.pending == NO_CHANGES && StoreRun(s, es)
    requires c in s.lock.phase && s.lock.phase[c].Settling?
    requires forall i :: 0 <= i < |es| ==> es[i].caller != c
    requires e == Committed(c) || e == Settled(c)
    requires CanStep(StoreAfter(s, es), e) && StoreAfter(s, es).lock.depth == 1
    ensures var t := StoreStep(StoreAfter(s, es), e);
            && t.flights == []
            && (!EndsDirty(false, s.lock.phase[c].zone, es) ==> t.pending == NO_CHANGES && Latest(t) == t.db)
            && ((forall i :: 0 <= i < |es| ==> !es[i].CommitRejected?) ==> Latest(t) == WithPuts(Latest(s), es))
  {
    LeftoversAfterSettling(s, c, es);
    var m := StoreAfter(s, es);
    var t := StoreStep(m, e);
    LastFlightLands(m, c, e);
    ReleasedDirtyExactlyWhen(s, c, es, e);
    StepRefinesSimple(m, e);
    if forall i :: 0 <= i < |es| ==> !es[i].CommitRejected? {
      LatestWhileSettling(s, c, es);
    }
    hide StoreInv, CanStep, StoreStep, StoreRun, StoreAfter, EndsDirty, WithPuts;
    if t.pending == NO_CHANGES {
      RevertedLatest(t);
    }
  }

  lemma LastFlightLands(s: Store, c: Caller, e: StoreEvent)
    requires StoreInv(s) && s.lock.depth == 1
    requires c in s.lock.phase && s.lock.phase[c].Settling?
    requires e == Committed(c) || e == Settled(c)
    requires CanStep(s, e)
    ensures StoreStep(s, e).flights == []
  {
    if e.Committed? {
      OneFlight(s, c);
    } else {
      AloneMeansNoFlights(s, c);
    }
  }

  /** While a caller settles nothing is rolled back. */
  lemma {:induction false} LatestWhileSettling(s: Store, c: Caller, es: seq<StoreEvent>)
    requires StoreInv(s) && StoreRun(s, es)
    requires c in s.lock.phase && s.lock.phase[c].Settling?
    requires forall i :: 0 <= i < |es| ==> es[i].caller != c && !es[i].CommitRejected?
    ensures Latest(StoreAfter(s, es)) == WithPuts(Latest(s), es)
    decreases |es|
  {
    if es != [] {
      hide Latest, StoreInv, StoreStep, CanStep, PutInTables;
      LatestInOneStep(s, c, es[0]);
      SettlingStep(s, c, es[0]);
      StoreStepKeepsInv(s, es[0]);
      LatestWhileSettling(StoreStep(s, es[0]), c, es[1..]);
    }
  }

  lemma LatestInOneStep(s: Store, c: Caller, e: StoreEvent)
    requires StoreInv(s) && CanStep(s, e) && !e.CommitRejected?
    requires c in s.lock.phase && s.lock.phase[c].Settling? && e.caller != c
    ensures Latest(StoreStep(s, e)) == if e.PutRow? then PutInTables(Latest(s), e.kind, e.id, e.value) else Latest(s)
  {
    hide Latest, StoreInv, StoreStep, PutInTables;
    StepRefinesSimple(s, e);
    if e.Throw? {
      NotAlone(s, c, e.caller);
    }
  }

  lemma NotAlone(s: Store, c: Caller, d: Caller)
    requires StoreInv(s) && c in s.lock.phase && s.lock.phase[c].Settling? && InBody(s, d)
    ensures s.lock.depth != 1
  {
    InsideMembers(s.lock.phase);
    if s.lock.depth == 1 {
      OnlyOneInside(s.lock, c);
    }
  }

  /** Such leftovers are lost when the next caller, in whatever zone, fails at
      depth one, although their writer has returned normally. */
  lemma NextFailureRevertsLeftovers(s: Store, c: Caller, z: Zone)
    requires StoreInv(s) && s.lock.currentZone == None && c !in s.lock.phase
    ensures CanStep(s, Enter(c, z)) && CanStep(StoreStep(s, Enter(c, z)), Throw(c))
    ensures Latest(StoreStep(StoreStep(s, Enter(c, z)), Throw(c))) == s.db
  {
    var t := StoreStep(s, Enter(c, z));
    StoreStepKeepsInv(s, Enter(c, z));
    InsideMembers(s.lock.phase);
    assert InBody(t, c);
    RevertDiscards(t, c);
  }

  /** And there are such leftovers whenever a call overlaps a commit: from every
      state in which `c` alone is inside and awaits its commit, a new caller `d` can
      enter the same zone, write something the zone buffers, and return normally;
      then `c` leaves, the zone is released, and the write of `d` is neither in
      flight nor in the database. */
  lemma OverlappingCallLeavesItsWrite(s: Store, c: Caller, d: Caller, k: Kind, id: string, v: Bytes)
    requires StoreInv(s) && AwaitsAlone(s, c)
    requires Supports(s.lock.phase[c].zone, k) && d !in s.lock.phase
    ensures |s.flights| == 1
    ensures var z := s.lock.phase[c].zone;
            var es := [Enter(d, z), PutRow(d, k, id, v), Return(d), Committed(c)];
            && StoreRun(s, es)
            && var t := StoreAfter(s, es);
            && d in t.lock.phase && t.lock.phase[d] == Left
            && t.lock.currentZone != Some(z)
            && t.pending == Put(s.pending, k, id, v) && t.flights == []
            && t.db == Overlay(s.db, Rows(s.flights[0].changes))
  {
    var z := s.lock.phase[c].zone;
    var es := [Enter(d, z), PutRow(d, k, id, v), Return(d)];
    OneFlight(s, c);
    CallBeside(s, c, d, k, id, v);
    var t := StoreAfter(s, es);
    hide StoreInv, StoreStep, CanStep, StoreRun, StoreAfter;
    CommitAlone(t, c);
    RunOneMore(s, es, Committed(c));
    assert es + [Committed(c)] == [Enter(d, z), PutRow(d, k, id, v), Return(d), Committed(c)];
  }

  /** The whole overlapping call, up to its return. */
  lemma CallBeside(s: Store, c: Caller, d: Caller, k: Kind, id: string, v: Bytes)
    requires StoreInv(s) && AwaitsAlone(s, c)
    requires Supports(s.lock.phase[c].zone, k) && d !in s.lock.phase
    ensures var es := [Enter(d, s.lock.phase[c].zone), PutRow(d, k, id, v), Return(d)];
            && StoreRun(s, es)
            && StoreAfter(s, es) == s.(lock := s.lock.(phase := s.lock.phase[d := Left]), pending := Put(s.pending, k, id, v))
            && StoreInv(StoreAfter(s, es)) && AwaitsAlone(StoreAfter(s, es), c)
  {
    hide StoreInv, StoreStep, CanStep, AwaitsAlone, InBody, Put, StoreRun, StoreAfter;
    StaysAlone(s, c, d, Put(s.pending, k, id, v));
    var e1, e2, e3 := Enter(d, s.lock.phase[c].zone), PutRow(d, k, id, v), Return(d);
    EnterBeside(s, c, d);
    var s1 := StoreStep(s, e1);
    PutBeside(s1, d, k, id, v);
    var s2 := StoreStep(s1, e2);
    ReturnBeside(s2, d);
    StoreStepKeepsInv(s, e1);
    StoreStepKeepsInv(s1, e2);
    StoreStepKeepsInv(s2, e3);
    assert StoreStep(s2, e3).lock == s.lock.(phase := s.lock.phase[d := Left]);
    NoSteps(StoreStep(s2, e3));
    assert [e3] + [] == [e3] && [e2] + [e3] == [e2, e3] && [e1] + [e2, e3] == [e1, e2, e3];
    Prepend(s2, e3, []);
    Prepend(s1, e2, [e3]);
    Prepend(s, e1, [e2, e3]);
  }

  lemma StaysAlone(s: Store, c: Caller, d: Caller, p: Pending)
    requires AwaitsAlone(s, c) && d !in s.lock.phase
    ensures s.lock.depth == 1 && c in s.lock.phase && s.lock.phase[c].Settling?
    ensures AwaitsAlone(s.(lock := s.lock.(phase := s.lock.phase[d := Left]), pending := p), c)
  {
  }

  lemma {:induction false} RunOneMore(s: Store, es: seq<StoreEvent>, e: StoreEvent)
    requires StoreRun(s, es) && CanStep(StoreAfter(s, es), e)
    ensures StoreRun(s, es + [e]) && StoreAfter(s, es + [e]) == StoreStep(StoreAfter(s, es), e)
    decreases |es|
  {
    hide CanStep, StoreStep;
    if es == [] {
      Prepend(s, e, []);
      assert es + [e] == [e] + [];
    } else {
      RunOneMore(StoreStep(s, es[0]), es[1..], e);
      Prepend(s, es[0], es[1..] + [e]);
      assert es + [e] == [es[0]] + (es[1..] + [e]);
    }
  }

  /** `c` is the only caller inside, and awaits the commit of its zone. */
  ghost predicate AwaitsAlone(s: Store, c: Caller) {
    && s.lock.depth == 1 && c in s.lock.phase && s.lock.phase[c].Settling? && s.lock.phase[c].ok
    && Awaiting(s, c)
  }

  lemma OneFlight(s: Store, c: Caller)
    requires StoreInv(s) && AwaitsAlone(s, c)
    ensures |s.flights| == 1 && s.flights[0].caller == c
    ensures s.lock.currentZone == Some(s.lock.phase[c].zone)
  {
    OnlyOneInside(s.lock, c);
    InsideMembers(s.lock.phase);
    assert c in InsideCallers(s.lock.phase);
    assert forall i :: 0 <= i < |s.flights| ==> s.flights[i].caller in InsideCallers(s.lock.phase);
    OneCaller(s.flights, c);
  }

  lemma OneCaller(fs: seq<Flight>, c: Caller)
    requires fs != [] && forall i :: 0 <= i < |fs| ==> fs[i].caller == c
    requires forall i, j :: 0 <= i < j < |fs| ==> fs[i].caller != fs[j].caller
    ensures |fs| == 1
  {
    var callers := seq(|fs|, i requires 0 <= i < |fs| => fs[i].caller);
    DistinctCount(callers);
    assert callers[0] == c;
    assert ToSet(callers) == {c};
  }

  lemma EnterBeside(s: Store, c: Caller, d: Caller)
    requires StoreInv(s) && AwaitsAlone(s, c) && d !in s.lock.phase
    ensures var z := s.lock.phase[c].zone;
            && CanStep(s, Enter(d, z))
            && StoreStep(s, Enter(d, z)) == s.(lock := EnterZone(s.lock, d, z))
            && InBody(StoreStep(s, Enter(d, z)), d)
  {
    OneFlight(s, c);
  }

  lemma PutBeside(s: Store, d: Caller, k: Kind, id: string, v: Bytes)
    requires InBody(s, d) && Supports(s.lock.phase[d].zone, k)
    ensures CanStep(s, PutRow(d, k, id, v))
    ensures StoreStep(s, PutRow(d, k, id, v)) == s.(pending := Put(s.pending, k, id, v))
    ensures InBody(StoreStep(s, PutRow(d, k, id, v)), d)
  {
  }

  lemma ReturnBeside(s: Store, d: Caller)
    requires InBody(s, d) && s.lock.depth > 1
    ensures CanStep(s, Return(d))
    ensures StoreStep(s, Return(d)) == s.(lock := s.lock.(depth := s.lock.depth - 1, phase := s.lock.phase[d := Left]))
  {
  }

  lemma CommitAlone(s: Store, c: Caller)
    requires StoreInv(s) && AwaitsAlone(s, c) && |s.flights| == 1
    ensures CanStep(s, Committed(c))
    ensures var t := StoreStep(s, Committed(c));
            && t.lock.currentZone != Some(s.lock.phase[c].zone) && t.pending == s.pending && t.flights == []
            && t.db == Overlay(s.db, Rows(s.flights[0].changes))
            && (forall x :: x in s.lock.phase && s.lock.phase[x].Left? ==> x in t.lock.phase && t.lock.phase[x] == Left)
  {
    OneFlight(s, c);
    ReleaseWakesPrefix(s.lock, c);
    var t := StoreStep(s, Committed(c));
    assert t.lock == Depart(s.lock, c);
    WokenKeepsLeft(s.lock, c);
    hide StoreInv, Depart;
  }

  lemma WokenKeepsLeft(l: Lock, c: Caller)
    requires Inv(l) && l.depth == 1 && c in l.phase && l.phase[c].Inside()
    ensures var t := Depart(l, c);
            && t.currentZone != l.currentZone
            && (forall x :: x in l.phase && l.phase[x].Left? ==> x in t.phase && t.phase[x] == Left)
  {
    ReleaseWakesPrefix(l, c);
    if l.queue != [] {
      var n := SameZonePrefix(l.queue, l.queue[0].zone);
      assert l.queue[..n] + l.queue[n..] == l.queue;
      PrefixCallersWait(l, n);
      hide Depart;
    }
  }

  lemma PrefixCallersWait(l: Lock, n: nat)
    requires Inv(l) && n <= |l.queue|
    ensures forall x :: x in Callers(l.queue[..n]) ==> x in l.phase && l.phase[x].Waiting?
  {
    forall x | x in Callers(l.queue[..n])
      ensures x in l.phase && l.phase[x].Waiting?
    {
      var i :| 0 <= i < n && Callers(l.queue[..n])[i] == x;
      assert l.queue[..n][i] == l.queue[i];
    }
  }
}
