/** The zone lock of `SignalProtocolStore`, as a transition system.

    Every call of `withZone` is a caller.  A step is the code that runs between
    two `await`s, so the callers interleave at the granularity of the JavaScript
    event loop.  The steps are functions of the lock state; the class in
    SignalProtocolStore.dfy implements them. */
module ZoneLock {
  import opened Common

  /** `uid` stands for object identity: zones are compared with `===`. */
  datatype Zone = Zone(uid: nat, pendingSenderKeys: bool, pendingSessions: bool, pendingUnprocessed: bool)

  type Caller = nat

  datatype QueueEntry = QueueEntry(zone: Zone, caller: Caller)

  /** Where a call of `withZone` stands.
      - Waiting: its callback is in the zone queue.
      - Running: it has entered the zone and its body is pending.
      - Settling: its body finished at depth one, and it awaits the commit
        (`ok`) or the revert (`!ok`).
      - Stuck: its commit was rejected, outside the `try`, so it never leaves.
      - Left: it is done. */
  datatype Phase =
    | Waiting(zone: Zone)
    | Running(zone: Zone)
    | Settling(zone: Zone, ok: bool)
    | Stuck(zone: Zone)
    | Left
  {
    predicate Inside() { Running? || Settling? || Stuck? }

    predicate Finisher() { Settling? || Stuck? }
  }

  /** `queued` and `served` are histories: the callers pushed on the queue, and
      those whose callback has been called, each in order. */
  datatype Lock = Lock(
    currentZone: Option<Zone>,
    depth: int,
    queue: seq<QueueEntry>,
    phase: map<Caller, Phase>,
    queued: seq<Caller>,
    served: seq<Caller>)

  const FREE := Lock(None, 0, [], map[], [], [])

  // ---------------------------------------------------------------- steps

  function EnterZone(s: Lock, c: Caller, z: Zone): Lock {
    s.(depth := s.depth + 1,
       currentZone := if s.depth + 1 == 1 then Some(z) else s.currentZone,
       phase := s.phase[c := Running(z)])
  }

  /** The synchronous part of `withZone`, called by user code or by a callback. */
  function WithZone(s: Lock, c: Caller, z: Zone): Lock {
    if s.currentZone.Some? && s.currentZone.value != z then
      s.(queue := s.queue + [QueueEntry(z, c)],
         phase := s.phase[c := Waiting(z)],
         queued := s.queued + [c])
    else
      EnterZone(s, c, z)
  }

  /** Calling the callbacks one after the other; each calls `withZone` again. */
  function RunCallbacks(s: Lock, entries: seq<QueueEntry>): Lock
    decreases |entries|
  {
    if entries == [] then s
    else
      var e := entries[0];
      RunCallbacks(WithZone(s.(served := s.served + [e.caller]), e.caller, e.zone), entries[1..])
  }

  /** Length of the longest prefix of `q` whose entries all want zone `z`. */
  function SameZonePrefix(q: seq<QueueEntry>, z: Zone): (n: nat)
    ensures n <= |q|
    ensures forall i :: 0 <= i < n ==> q[i].zone == z
    ensures n < |q| ==> q[n].zone != z
  {
    if q == [] || q[0].zone != z then 0 else 1 + SameZonePrefix(q[1..], z)
  }

  function LeaveZone(s: Lock): Lock {
    var t := s.(depth := s.depth - 1);
    if t.depth != 0 then t
    else
      var u := t.(currentZone := None);
      if u.queue == [] then u
      else
        var n := SameZonePrefix(u.queue, u.queue[0].zone);
        RunCallbacks(u.(queue := u.queue[n..]), u.queue[..n])
  }

  datatype Event =
    | Call(caller: Caller, zone: Zone)       // a new call of withZone
    | Finish(caller: Caller, ok: bool)       // its body resolves or rejects
    | Settle(caller: Caller)                 // its commit or revert completes
    | SettleFails(caller: Caller)            // its commit rejects

  predicate Enabled(s: Lock, e: Event) {
    match e
    case Call(c, z) => c !in s.phase
    case Finish(c, ok) => c in s.phase && s.phase[c].Running?
    case Settle(c) => c in s.phase && s.phase[c].Settling?
    case SettleFails(c) => c in s.phase && s.phase[c].Settling? && s.phase[c].ok
  }

  function Depart(s: Lock, c: Caller): Lock {
    LeaveZone(s.(phase := s.phase[c := Left]))
  }

  function Step(s: Lock, e: Event): Lock
    requires Enabled(s, e)
  {
    match e
    case Call(c, z) => WithZone(s, c, z)
    case Finish(c, ok) =>
      if s.depth == 1 then s.(phase := s.phase[c := Settling(s.phase[c].zone, ok)])
      else Depart(s, c)
    case Settle(c) => Depart(s, c)
    case SettleFails(c) => s.(phase := s.phase[c := Stuck(s.phase[c].zone)])
  }

  /** A run is a sequence of steps, each enabled where it is taken. */
  predicate Run(s: Lock, es: seq<Event>)
    decreases |es|
  {
    es == [] || (Enabled(s, es[0]) && Run(Step(s, es[0]), es[1..]))
  }

  function After(s: Lock, es: seq<Event>): Lock
    requires Run(s, es)
    decreases |es|
  {
    if es == [] then s else After(Step(s, es[0]), es[1..])
  }

  // ------------------------------------------------------------ invariant

  function InsideCallers(p: map<Caller, Phase>): set<Caller> {
    set c | c in p && p[c].Inside()
  }

  function Callers(q: seq<QueueEntry>): (cs: seq<Caller>)
    ensures |cs| == |q|
    ensures forall i :: 0 <= i < |q| ==> cs[i] == q[i].caller
  {
    if q == [] then [] else [q[0].caller] + Callers(q[1..])
  }

  /** Every caller between enter and leave is in the current zone, the depth
      counts them, and the zone is unset exactly at depth zero. */
  ghost predicate Exclusive(s: Lock) {
    && s.depth == |InsideCallers(s.phase)|
    && (s.currentZone.None? <==> s.depth == 0)
    && (forall c :: c in s.phase && s.phase[c].Inside() ==> s.currentZone == Some(s.phase[c].zone))
  }

  /** The queue holds exactly the waiting callers, each once. */
  ghost predicate QueueMatches(s: Lock) {
    && (forall i :: 0 <= i < |s.queue| ==>
          s.queue[i].caller in s.phase && s.phase[s.queue[i].caller] == Waiting(s.queue[i].zone))
    && (forall c :: c in s.phase && s.phase[c].Waiting? ==> c in Callers(s.queue))
    && s.queued == s.served + Callers(s.queue)
    && NoDuplicates(s.queued)
    && (forall c :: c in s.queued ==> c in s.phase)
  }

  /** No waiter is lost: someone is inside who will wake the head of the queue. */
  ghost predicate HeadBlocked(s: Lock) {
    s.queue != [] ==> s.currentZone.Some? && s.queue[0].zone != s.currentZone.value
  }

  ghost predicate Inv(s: Lock) {
    Exclusive(s) && QueueMatches(s) && HeadBlocked(s)
  }

  /** At most one caller is past its body and still inside.  It keeps the depth
      above one for everybody else, so no second commit or revert can start. */
  ghost predicate OneFinisher(s: Lock) {
    forall c, d :: c in s.phase && d in s.phase && s.phase[c].Finisher() && s.phase[d].Finisher() ==> c == d
  }

  // ----------------------------------------------------- preservation

  lemma InsideAfterUpdate(p: map<Caller, Phase>, c: Caller, ph: Phase)
    ensures InsideCallers(p[c := ph]) ==
            if ph.Inside() then InsideCallers(p) + {c} else InsideCallers(p) - {c}
  {
  }

  /** A release wakes the whole same-zone prefix at once: all its callers run,
      in the zone they asked for, and nobody is pushed back on the queue. */
  lemma {:induction false} RunCallbacksEnter(s: Lock, es: seq<QueueEntry>, z: Zone)
    requires forall i :: 0 <= i < |es| ==> es[i].zone == z
    requires s.depth >= 0
    requires if s.depth == 0 then s.currentZone == None else s.currentZone == Some(z)
    ensures var t := RunCallbacks(s, es);
            && t.depth == s.depth + |es|
            && t.currentZone == (if es == [] then s.currentZone else Some(z))
            && t.queue == s.queue
            && t.queued == s.queued
            && t.served == s.served + Callers(es)
            && (forall c :: c in t.phase <==> c in s.phase || c in Callers(es))
            && (forall c :: c in t.phase ==>
                  t.phase[c] == if c in Callers(es) then Running(z) else s.phase[c])
    decreases |es|
  {
    if es == [] {
      assert s.served + Callers(es) == s.served;
    } else {
      var e := es[0];
      var s1 := WithZone(s.(served := s.served + [e.caller]), e.caller, e.zone);
      assert s1 == s.(depth := s.depth + 1, currentZone := Some(z),
                      phase := s.phase[e.caller := Running(z)], served := s.served + [e.caller]);
      RunCallbacksEnter(s1, es[1..], z);
      assert Callers(es) == [e.caller] + Callers(es[1..]);
      assert s.served + Callers(es) == s1.served + Callers(es[1..]);
    }
  }

  /** `t` is `s` after its last holder `c` left: the maximal prefix of the queue
      that wants one zone has entered that zone, the rest is untouched. */
  ghost predicate PrefixWoken(s: Lock, c: Caller, t: Lock)
    requires s.queue != []
  {
    var z := s.queue[0].zone;
    var n := SameZonePrefix(s.queue, z);
    var woken := Callers(s.queue[..n]);
    && t.currentZone == Some(z)
    && t.depth == n
    && t.queue == s.queue[n..]
    && t.queued == s.queued
    && t.served == s.served + woken
    && InsideCallers(t.phase) == ToSet(woken)
    && t.phase.Keys == s.phase.Keys
    && (forall x :: x in s.phase ==>
          t.phase[x] == if x == c then Left else if x in woken then Running(z) else s.phase[x])
  }

  /** The last holder leaves: with nobody waiting the zone is free afterwards. */
  lemma ReleaseWakesPrefix(s: Lock, c: Caller)
    requires Inv(s) && s.depth == 1
    requires c in s.phase && s.phase[c].Inside()
    ensures InsideCallers(s.phase) == {c}
    ensures s.queue == [] ==> Depart(s, c) == Lock(None, 0, [], s.phase[c := Left], s.queued, s.served)
    ensures s.queue != [] ==> PrefixWoken(s, c, Depart(s, c))
  {
    OnlyOneInside(s, c);
    if s.queue != [] {
      var z := s.queue[0].zone;
      var n := SameZonePrefix(s.queue, z);
      var woken := Callers(s.queue[..n]);
      var u := s.(phase := s.phase[c := Left], depth := 0, currentZone := None, queue := s.queue[n..]);
      RunCallbacksEnter(u, s.queue[..n], z);
      var t := Depart(s, c);
      assert t == RunCallbacks(u, s.queue[..n]);
      assert InsideCallers(u.phase) == {} by { InsideAfterUpdate(s.phase, c, Left); }
      forall x | x in woken
        ensures x in s.phase && x != c && s.phase[x].Waiting?
      {
        var i :| 0 <= i < n && woken[i] == x;
        assert s.queue[i].caller == x;
      }
      forall x
        ensures x in InsideCallers(t.phase) <==> x in woken
      {
        assert x in t.phase && x !in woken ==> x !in InsideCallers(u.phase);
      }
    }
  }

  lemma OnlyOneInside(s: Lock, c: Caller)
    requires Exclusive(s) && s.depth == 1
    requires c in s.phase && s.phase[c].Inside()
    ensures InsideCallers(s.phase) == {c}
  {
    var inside := InsideCallers(s.phase);
    assert |inside - {c}| == 0;
    assert inside == (inside - {c}) + {c};
  }

  lemma DepartKeepsInv(s: Lock, c: Caller)
    requires Inv(s)
    requires c in s.phase && s.phase[c].Inside()
    ensures Inv(Depart(s, c))
  {
    InsideAfterUpdate(s.phase, c, Left);
    assert c in InsideCallers(s.phase);
    if s.depth != 1 {
      var t := Depart(s, c);
      assert t == s.(phase := s.phase[c := Left], depth := s.depth - 1);
      assert QueueMatches(t);
    } else if s.queue == [] {
      ReleaseWakesPrefix(s, c);
      var t := Depart(s, c);
      assert t == s.(phase := s.phase[c := Left], depth := 0, currentZone := None);
      assert InsideCallers(t.phase) == {};
      assert forall x :: x in t.phase && t.phase[x].Inside() ==> x in InsideCallers(t.phase);
      assert QueueMatches(t);
    } else {
      ReleaseKeepsInv(s, c);
    }
  }

  lemma ReleaseKeepsInv(s: Lock, c: Caller)
    requires Inv(s) && s.depth == 1 && s.queue != []
    requires c in s.phase && s.phase[c].Inside()
    ensures Inv(Depart(s, c))
  {
    var t := Depart(s, c);
    var z := s.queue[0].zone;
    var n := SameZonePrefix(s.queue, z);
    var woken := Callers(s.queue[..n]);
    ReleaseWakesPrefix(s, c);
    ReleaseSplitsQueue(s, n);
    DistinctCount(woken);
    InsideMembers(t.phase);
    ReleaseKeepsQueue(s, c, t);
    hide Depart, Callers, NoDuplicates, QueueMatches, HeadBlocked;
  }

  lemma InsideMembers(p: map<Caller, Phase>)
    ensures forall x :: x in p && p[x].Inside() <==> x in InsideCallers(p)
  {
  }

  lemma ReleaseKeepsQueue(s: Lock, c: Caller, t: Lock)
    requires QueueMatches(s) && s.queue != []
    requires c in s.phase && s.phase[c].Inside()
    requires PrefixWoken(s, c, t)
    ensures QueueMatches(t) && HeadBlocked(t)
  {
    var n := SameZonePrefix(s.queue, s.queue[0].zone);
    ReleaseSplitsQueue(s, n);
    forall i | 0 <= i < |t.queue|
      ensures t.queue[i].caller in t.phase && t.phase[t.queue[i].caller] == Waiting(t.queue[i].zone)
    {
      StillWaiting(s, c, t, i);
    }
    forall x | x in t.phase && t.phase[x].Waiting?
      ensures x in Callers(t.queue)
    {
      assert x in Callers(s.queue);
    }
  }

  lemma StillWaiting(s: Lock, c: Caller, t: Lock, i: nat)
    requires QueueMatches(s) && s.queue != []
    requires c in s.phase && s.phase[c].Inside()
    requires PrefixWoken(s, c, t)
    requires i < |t.queue|
    ensures t.queue[i].caller in t.phase && t.phase[t.queue[i].caller] == Waiting(t.queue[i].zone)
  {
    var n := SameZonePrefix(s.queue, s.queue[0].zone);
    ReleaseSplitsQueue(s, n);
    var x := s.queue[n + i].caller;
    assert Callers(s.queue[n..])[i] == x;
    assert x in Callers(s.queue[n..]);
  }

  lemma CallersSplit(q: seq<QueueEntry>, n: nat)
    requires n <= |q|
    ensures Callers(q) == Callers(q[..n]) + Callers(q[n..])
  {
  }

  lemma ReleaseSplitsQueue(s: Lock, n: nat)
    requires QueueMatches(s) && n <= |s.queue|
    ensures Callers(s.queue) == Callers(s.queue[..n]) + Callers(s.queue[n..])
    ensures s.queued == (s.served + Callers(s.queue[..n])) + Callers(s.queue[n..])
    ensures NoDuplicates(Callers(s.queue[..n]))
    ensures forall x :: x in Callers(s.queue[..n]) ==> x !in Callers(s.queue[n..])
  {
    CallersSplit(s.queue, n);
    hide Callers, NoDuplicates;
    var woken, rest := Callers(s.queue[..n]), Callers(s.queue[n..]);
    assert s.queued == s.served + (woken + rest);
    assert (s.served + woken) + rest == s.served + (woken + rest);
    NoDuplicatesParts(s.served, woken, rest);
  }

  lemma CallKeepsInv(s: Lock, c: Caller, z: Zone)
    requires Inv(s) && c !in s.phase
    ensures Inv(WithZone(s, c, z))
  {
    if s.currentZone.Some? && s.currentZone.value != z {
      PushKeepsExclusive(s, c, z);
      PushKeepsQueue(s, c, z);
      assert HeadBlocked(WithZone(s, c, z));
    } else {
      EnterKeepsExclusive(s, c, z);
      EnterKeepsQueue(s, c, z);
    }
  }

  lemma PushKeepsExclusive(s: Lock, c: Caller, z: Zone)
    requires Exclusive(s) && c !in s.phase
    requires s.currentZone.Some? && s.currentZone.value != z
    ensures Exclusive(WithZone(s, c, z))
  {
    InsideAfterUpdate(s.phase, c, Waiting(z));
    assert c !in InsideCallers(s.phase);
    assert InsideCallers(s.phase[c := Waiting(z)]) == InsideCallers(s.phase);
  }

  lemma EnterKeepsExclusive(s: Lock, c: Caller, z: Zone)
    requires Exclusive(s) && c !in s.phase
    requires s.currentZone.None? || s.currentZone.value == z
    ensures Exclusive(EnterZone(s, c, z))
  {
    InsideAfterUpdate(s.phase, c, Running(z));
    assert c !in InsideCallers(s.phase);
    if s.currentZone.None? {
      assert forall x :: x in s.phase && s.phase[x].Inside() ==> x in InsideCallers(s.phase);
    }
  }

  lemma EnterKeepsQueue(s: Lock, c: Caller, z: Zone)
    requires QueueMatches(s) && HeadBlocked(s) && c !in s.phase
    requires s.currentZone.None? || s.currentZone.value == z
    ensures QueueMatches(EnterZone(s, c, z)) && HeadBlocked(EnterZone(s, c, z))
  {
  }

  lemma PushKeepsQueue(s: Lock, c: Caller, z: Zone)
    requires QueueMatches(s) && c !in s.phase
    requires s.currentZone.Some? && s.currentZone.value != z
    ensures QueueMatches(WithZone(s, c, z))
  {
    var t := WithZone(s, c, z);
    assert Callers(t.queue) == Callers(s.queue) + [c];
    assert t.queued == t.served + Callers(t.queue);
    NoDuplicatesAppend(s.queued, c);
  }

  /** Every step keeps the lock invariant. */
  lemma StepKeepsInv(s: Lock, e: Event)
    requires Inv(s) && Enabled(s, e)
    ensures Inv(Step(s, e))
  {
    match e
    case Call(c, z) => CallKeepsInv(s, c, z);
    case Finish(c, ok) =>
      assert c in InsideCallers(s.phase);
      if s.depth == 1 {
        InsideAfterUpdate(s.phase, c, Settling(s.phase[c].zone, ok));
        assert InsideCallers(s.phase) + {c} == InsideCallers(s.phase);
      } else {
        DepartKeepsInv(s, c);
      }
    case Settle(c) => DepartKeepsInv(s, c);
    case SettleFails(c) =>
      assert c in InsideCallers(s.phase);
      InsideAfterUpdate(s.phase, c, Stuck(s.phase[c].zone));
      assert InsideCallers(s.phase) + {c} == InsideCallers(s.phase);
  }

  lemma StepKeepsOneFinisher(s: Lock, e: Event)
    requires Inv(s) && OneFinisher(s) && Enabled(s, e)
    ensures OneFinisher(Step(s, e))
  {
    if e.Settle? && s.depth == 1 {
      ReleaseKeepsOneFinisher(s, e.caller);
    } else {
      InsideMembers(s.phase);
      if e.Finish? && s.depth == 1 {
        OnlyOneInside(s, e.caller);
        ReleaseKeepsOneFinisher(s, e.caller);
      }
    }
  }

  lemma ReleaseKeepsOneFinisher(s: Lock, c: Caller)
    requires Inv(s) && OneFinisher(s) && s.depth == 1 && c in s.phase && s.phase[c].Inside()
    ensures OneFinisher(Depart(s, c))
  {
    if s.queue != [] {
      ReleaseWakesPrefix(s, c);
      hide Depart;
    }
  }

  /** Mutual exclusion between zones, exact depth, and a queue that loses and
      duplicates nobody, in every state of every interleaving. */
  lemma {:induction false} EveryRunKeepsInv(s: Lock, es: seq<Event>)
    requires Inv(s) && OneFinisher(s) && Run(s, es)
    ensures Inv(After(s, es)) && OneFinisher(After(s, es))
    decreases |es|
  {
    if es != [] {
      StepKeepsInv(s, es[0]);
      StepKeepsOneFinisher(s, es[0]);
      EveryRunKeepsInv(Step(s, es[0]), es[1..]);
    }
  }

  // ------------------------------------------------- who moves in a step

  /** A call enters at once exactly when the zone is free or already its own, at
      whatever depth and whoever waits; otherwise it is the last to wait.  Nobody
      else moves. */
  lemma CallEntersExactlyWhen(s: Lock, c: Caller, z: Zone)
    requires Inv(s) && Enabled(s, Call(c, z))
    ensures var t := Step(s, Call(c, z));
            if s.currentZone.None? || s.currentZone == Some(z)
            then t == Lock(Some(z), s.depth + 1, s.queue, s.phase[c := Running(z)], s.queued, s.served)
            else t == Lock(s.currentZone, s.depth, s.queue + [QueueEntry(z, c)], s.phase[c := Waiting(z)],
                           s.queued + [c], s.served)
  {
  }

  /** So a call made from inside a body, for the zone of that body, never waits. */
  lemma NestedCallEnters(s: Lock, d: Caller, c: Caller)
    requires Inv(s) && d in s.phase && s.phase[d].Inside() && c !in s.phase
    ensures var t := Step(s, Call(c, s.phase[d].zone));
            t.phase == s.phase[c := Running(s.phase[d].zone)] && t.queue == s.queue
  {
    CallEntersExactlyWhen(s, c, s.phase[d].zone);
  }

  /** A caller that ends while others are inside leaves alone.  The last one settles
      first, and keeps the zone for ever if that fails.  See `ReleaseWakesPrefix`
      for what happens when it then leaves. */
  lemma OnlyTheLastSettles(s: Lock, e: Event)
    requires Inv(s) && Enabled(s, e) && !e.Call?
    ensures var t, c := Step(s, e), e.caller;
            && s.currentZone.Some?
            && (!e.SettleFails? && s.depth > 1 ==> t == s.(depth := s.depth - 1, phase := s.phase[c := Left]))
            && (e.Finish? && s.depth == 1 ==> t == s.(phase := s.phase[c := Settling(s.currentZone.value, e.ok)]))
            && (e.SettleFails? ==> t == s.(phase := s.phase[c := Stuck(s.currentZone.value)]))
  {
    InsideMembers(s.phase);
  }

  // ------------------------------------------------------------ progress

  predicate Finishing(es: seq<Event>) {
    forall i :: 0 <= i < |es| ==> es[i].Finish? || es[i].Settle?
  }

  function RunningCallers(p: map<Caller, Phase>): set<Caller> {
    set c | c in p && p[c].Running?
  }

  ghost predicate NoneStuck(s: Lock) {
    forall c :: c in s.phase ==> !s.phase[c].Stuck?
  }

  /** A bound on the finishing steps still to come. */
  function Work(s: Lock): int {
    3 * |s.queue| + s.depth + |RunningCallers(s.phase)|
  }

  lemma FinishingStepDecreases(s: Lock, e: Event)
    requires Inv(s) && Enabled(s, e) && (e.Finish? || e.Settle?)
    ensures var t := Step(s, e);
            && t.queued == s.queued
            && (NoneStuck(s) ==> NoneStuck(t))
            && Work(t) < Work(s)
            // (queue length, depth, running bodies) decreases lexicographically
            && (|t.queue| < |s.queue|
                || (|t.queue| == |s.queue| && t.depth < s.depth)
                || (|t.queue| == |s.queue| && t.depth == s.depth
                    && |RunningCallers(t.phase)| < |RunningCallers(s.phase)|))
  {
    var c := e.caller;
    var t := Step(s, e);
    if e.Finish? && s.depth == 1 {
      RunningAfterUpdate(s.phase, c, t.phase[c]);
      assert c in RunningCallers(s.phase);
    } else {
      DepartDecreases(s, c);
    }
  }

  lemma RunningAfterUpdate(p: map<Caller, Phase>, c: Caller, ph: Phase)
    requires !ph.Running?
    ensures RunningCallers(p[c := ph]) == RunningCallers(p) - {c}
  {
  }

  lemma DepartDecreases(s: Lock, c: Caller)
    requires Inv(s)
    requires c in s.phase && s.phase[c].Inside()
    ensures var t := Depart(s, c);
            && t.queued == s.queued
            && (NoneStuck(s) ==> NoneStuck(t))
            && Work(t) < Work(s)
            && (|t.queue| < |s.queue| || (|t.queue| == |s.queue| && t.depth < s.depth))
  {
    var t := Depart(s, c);
    RunningAfterUpdate(s.phase, c, Left);
    assert c in InsideCallers(s.phase);
    if s.depth == 1 && s.queue != [] {
      ReleaseWakesPrefix(s, c);
      WokenWork(s, c, t);
      if NoneStuck(s) {
        WokenNoneStuck(s, c, t);
      }
    } else {
      assert t.phase == s.phase[c := Left] && t.queue == s.queue && t.depth == s.depth - 1;
      SubsetCount(RunningCallers(s.phase) - {c}, RunningCallers(s.phase));
    }
  }

  lemma WokenNoneStuck(s: Lock, c: Caller, t: Lock)
    requires s.queue != [] && PrefixWoken(s, c, t) && NoneStuck(s)
    ensures NoneStuck(t)
  {
  }

  lemma WokenWork(s: Lock, c: Caller, t: Lock)
    requires QueueMatches(s) && s.queue != [] && s.depth == 1
    requires c in s.phase && s.phase[c].Inside()
    requires PrefixWoken(s, c, t)
    ensures Work(t) < Work(s) && |t.queue| < |s.queue|
  {
    var n := SameZonePrefix(s.queue, s.queue[0].zone);
    ReleaseSplitsQueue(s, n);
    hide Callers;
    DistinctCount(Callers(s.queue[..n]));
    assert RunningCallers(t.phase) <= InsideCallers(t.phase);
    SubsetCount(RunningCallers(t.phase), InsideCallers(t.phase));
    hide InsideCallers, RunningCallers, NoDuplicates, ToSet;
  }

  lemma {:induction false} SubsetCount<T>(a: set<T>, b: set<T>)
    requires a <= b
    ensures |a| <= |b|
  {
    if a != {} {
      var x :| x in a;
      SubsetCount(a - {x}, b - {x});
    }
  }

  /** While nobody new arrives, bodies finish and no commit rejects, every run
      is bounded; and when no such step is left, every caller has run and left,
      the callbacks were called exactly once each, in the order they were
      queued, and the zone is free. */
  lemma {:induction false} FinishingRunsServeEveryone(s: Lock, es: seq<Event>)
    requires Inv(s) && NoneStuck(s)
    requires Run(s, es) && Finishing(es)
    ensures Work(After(s, es)) + |es| <= Work(s)
    ensures After(s, es).queued == s.queued
    ensures (forall e :: Enabled(After(s, es), e) ==> !e.Finish? && !e.Settle?) ==>
              && (forall c :: c in After(s, es).phase ==> After(s, es).phase[c] == Left)
              && After(s, es).served == s.queued && NoDuplicates(s.queued)
              && After(s, es).currentZone == None
              && After(s, es).depth == 0
    decreases |es|
  {
    if es == [] {
      if forall e :: Enabled(s, e) ==> !e.Finish? && !e.Settle? {
        QuiescentIsFree(s);
      }
    } else {
      StepKeepsInv(s, es[0]);
      FinishingStepDecreases(s, es[0]);
      FinishingRunsServeEveryone(Step(s, es[0]), es[1..]);
    }
  }

  lemma QuiescentIsFree(s: Lock)
    requires Inv(s) && NoneStuck(s)
    requires forall e :: Enabled(s, e) ==> !e.Finish? && !e.Settle?
    ensures forall c :: c in s.phase ==> s.phase[c] == Left
    ensures s.served == s.queued && s.currentZone == None && s.depth == 0
  {
    forall c | c in s.phase
      ensures !s.phase[c].Inside()
    {
      assert !Enabled(s, Finish(c, true));
      assert !Enabled(s, Settle(c));
    }
    assert InsideCallers(s.phase) == {};
    assert s.queue == [];
    assert s.served + Callers(s.queue) == s.served;
  }

  /** One rejected commit holds its zone for ever: whatever happens afterwards,
      the zone stays current, nobody queued is ever called, and the queue only
      grows. */
  lemma {:induction false} StuckCallerBlocksForever(s: Lock, c: Caller, es: seq<Event>)
    requires Inv(s) && Run(s, es)
    requires c in s.phase && s.phase[c].Stuck?
    ensures var t := After(s, es);
            && t.currentZone == Some(s.phase[c].zone)
            && t.served == s.served
            && s.queue <= t.queue
            && (forall x :: x in s.phase && s.phase[x].Waiting? ==> x in t.phase && t.phase[x] == s.phase[x])
    decreases |es|
  {
    if es != [] {
      StuckStep(s, c, es[0]);
      StepKeepsInv(s, es[0]);
      StuckCallerBlocksForever(Step(s, es[0]), c, es[1..]);
    }
  }

  lemma StuckStep(s: Lock, c: Caller, e: Event)
    requires Inv(s) && Enabled(s, e)
    requires c in s.phase && s.phase[c].Stuck?
    ensures var t := Step(s, e);
            && c in t.phase && t.phase[c] == s.phase[c]
            && t.served == s.served
            && s.queue <= t.queue
            && (forall x :: x in s.phase && s.phase[x].Waiting? ==> x in t.phase && t.phase[x] == s.phase[x])
  {
    var x := e.caller;
    if !e.Call? && s.depth == 1 {
      InsideMembers(s.phase);
      OnlyOneInside(s, x);
      assert false;
    }
  }

  /** And a rejected commit gets there: the first caller of all enters, returns, and
      its commit is rejected. */
  lemma RejectedCommitSticks(c: Caller, z: Zone)
    ensures var es := [Call(c, z), Finish(c, true), SettleFails(c)];
            Run(FREE, es) && After(FREE, es).phase == map[c := Stuck(z)] && After(FREE, es).currentZone == Some(z)
  {
    var s1 := EnterZone(FREE, c, z);
    var s2 := s1.(phase := map[c := Settling(z, true)]);
    var s3 := s1.(phase := map[c := Stuck(z)]);
    assert Step(FREE, Call(c, z)) == s1 && s1.phase == map[c := Running(z)];
    assert Step(s1, Finish(c, true)) == s2 && Step(s2, SettleFails(c)) == s3;
    hide Step, Enabled;
    RunFirst(s2, SettleFails(c), []);
    RunFirst(s1, Finish(c, true), [SettleFails(c)]);
    RunFirst(FREE, Call(c, z), [Finish(c, true), SettleFails(c)]);
  }

  lemma RunFirst(s: Lock, e: Event, es: seq<Event>)
    requires Enabled(s, e) && Run(Step(s, e), es)
    ensures Run(s, [e] + es) && After(s, [e] + es) == After(Step(s, e), es)
  {
    assert ([e] + es)[1..] == es;
  }
}
