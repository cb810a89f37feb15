/** The other half of the challenge handler: conversations registered for a
    retry, their timers, and the starts that wait for the app to be online. */
module ChallengeStarts {
  import opened Common

  datatype Challenge = Challenge(createdAt: nat, retryAt: Option<nat>, token: Option<string>, silent: bool)

  datatype Timer = Timer(conversationId: string, due: nat)

  /** A call of `register` that awaits the storage. */
  datatype Registering = Registering(conversationId: string, challenge: Challenge, wantsCaptcha: bool)

  datatype Starts = Starts(
    online: bool,
    rateLimitRetryAt: Option<nat>,
    registered: map<string, Challenge>,
    pendingStarts: set<string>,
    startTimers: map<string, nat>,
    timers: map<nat, Timer>,             // the timers that are running
    nextTimer: nat,
    stored: Option<set<string>>,         // what the last `#persist` stored
    registering: map<nat, Registering>,
    calls: nat,
    registrations: multiset<string>,     // all registrations that were made
    dropped: multiset<string>,           // ended by `unregister` alone
    starting: multiset<string>,          // ended by `#startQueue`, which then awaits the storage
    started: multiset<string>)           // `startQueue` was called

  const NO_STARTS := Starts(false, None, map[], {}, map[], map[], 0, None, map[], 0,
                            multiset{}, multiset{}, multiset{}, multiset{})

  predicate ShouldStart(ch: Challenge, now: nat) {
    NonZero(ch.retryAt) && ch.retryAt.value <= now
  }

  function Persist(s: Starts): Starts {
    s.(stored := Some(s.registered.Keys))
  }

  function ScheduleRetry(s: Starts, c: string, retryAt: nat, now: nat): Starts {
    var running := if c in s.startTimers then s.timers - {s.startTimers[c]} else s.timers;
    s.(timers := running[s.nextTimer := Timer(c, Max(now, retryAt))],
       startTimers := s.startTimers[c := s.nextTimer],
       nextTimer := s.nextTimer + 1)
  }

  function Unregister(s: Starts, c: string): Starts {
    Persist(s.(registered := s.registered - {c},
               pendingStarts := s.pendingStarts - {c},
               startTimers := s.startTimers - {c},
               timers := if c in s.startTimers then s.timers - {s.startTimers[c]} else s.timers))
  }

  /** `unregister`, called from outside. */
  function Drop(s: Starts, c: string): Starts {
    Unregister(s, c).(dropped := if c in s.registered then s.dropped + multiset{c} else s.dropped)
  }

  function StartQueue(s: Starts, c: string): Starts {
    if !s.online then s.(pendingStarts := s.pendingStarts + {c})
    else Unregister(s, c).(starting := s.starting + multiset{c})
  }

  function StartEach(s: Starts, cs: seq<string>): Starts
    decreases |cs|
  {
    if cs == [] then s else StartEach(StartQueue(s, cs[0]), cs[1..])
  }

  /** The registered conversations that `#startAllQueues` starts. */
  function ToStart(s: Starts, force: bool, now: nat): set<string> {
    set c | c in s.registered && (force || ShouldStart(s.registered[c], now))
  }

  function WaitOn(s: Starts, c: string, retryAt: nat, now: nat): Starts
    requires c in s.registered
  {
    ScheduleRetry(s.(registered := s.registered[c := s.registered[c].(retryAt := Some(retryAt))]), c, retryAt, now)
  }

  function WaitOnEach(s: Starts, retryAt: nat, now: nat, cs: seq<string>): Starts
    decreases |cs|
  {
    if cs == [] then s
    else if cs[0] !in s.registered then WaitOnEach(s, retryAt, now, cs[1..])
    else WaitOnEach(WaitOn(s, cs[0], retryAt, now), retryAt, now, cs[1..])
  }

  function ForceWaitOnAll(s: Starts, retryAt: nat, now: nat, order: seq<string>): Starts {
    WaitOnEach(s.(rateLimitRetryAt := Some(retryAt)), retryAt, now, order)
  }

  function FireTimer(s: Starts, h: nat): Starts
    requires h in s.timers
  {
    var c := s.timers[h].conversationId;
    StartQueue(s.(timers := s.timers - {h}, startTimers := s.startTimers - {c}, rateLimitRetryAt := None), c)
  }

  /** `register`, up to its `await`. */
  function Register(s: Starts, c: string, ch: Challenge, wantsCaptcha: bool): Starts {
    if c in s.registered then s else Persist(AddRegistration(s, c, ch, wantsCaptcha))
  }

  function AddRegistration(s: Starts, c: string, ch: Challenge, wantsCaptcha: bool): Starts {
    s.(registered := s.registered[c := ch],
       registering := s.registering[s.calls := Registering(c, ch, wantsCaptcha)],
       calls := s.calls + 1,
       registrations := s.registrations + multiset{c})
  }

  /** `register`, after its `await`. */
  function ResumeRegister(s: Starts, k: nat, now: nat): Starts
    requires k in s.registering
  {
    var r := s.registering[k];
    var t := s.(registering := s.registering - {k});
    if ShouldStart(r.challenge, now) then StartQueue(t, r.conversationId)
    else if NonZero(t.rateLimitRetryAt) then ScheduleRetry(t, r.conversationId, t.rateLimitRetryAt.value, now)
    else if NonZero(r.challenge.retryAt) then ScheduleRetry(t, r.conversationId, r.challenge.retryAt.value, now)
    else t
  }

  /** Whether `register` then also shows a captcha, and for which token. */
  function CaptchaFor(r: Registering, now: nat): Option<string> {
    if ShouldStart(r.challenge, now) || !r.wantsCaptcha || r.challenge.silent then None
    else if r.challenge.token == Some("") then None
    else r.challenge.token
  }

  function GoOnline(s: Starts, order: seq<string>): Starts {
    StartEach(s.(online := true, pendingStarts := {}), order)
  }

  /** `#startQueue` goes on and calls `startQueue`. */
  function Started(s: Starts, c: string): Starts {
    s.(starting := s.starting - multiset{c}, started := s.started + multiset{c})
  }

  // -------------------------------------------------------------- invariant

  ghost predicate TimersMatch(s: Starts) {
    && (forall c :: c in s.startTimers ==>
          s.startTimers[c] in s.timers && s.timers[s.startTimers[c]].conversationId == c)
    && (forall h :: h in s.timers ==>
          h < s.nextTimer && s.timers[h].conversationId in s.startTimers
          && s.startTimers[s.timers[h].conversationId] == h)
  }

  /** One running timer at most for each conversation, and the stored ids are the
      registered ones. */
  ghost predicate TimersInv(s: Starts) {
    && TimersMatch(s)
    && (s.stored == Some(s.registered.Keys) || (s.stored.None? && s.registered == map[]))
    && (forall k :: k in s.registering ==> k < s.calls)
  }

  /** What became of the registrations of a conversation. */
  function Accounts(s: Starts, c: string): nat {
    (if c in s.registered then 1 else 0) + s.dropped[c] + s.starting[c] + s.started[c]
  }

  /** A timer or a put-off start is of a conversation only while it is registered;
      every registration is still there, or was dropped, or caused one start. */
  ghost predicate ConversationInv(s: Starts, c: string) {
    && (c in s.startTimers ==> c in s.registered)
    && (c in s.pendingStarts ==> c in s.registered)
    && s.registrations[c] == Accounts(s, c)
  }

  // ------------------------------------------------- single operations

  lemma ScheduleKeepsTimers(s: Starts, c: string, retryAt: nat, now: nat)
    requires TimersInv(s)
    ensures TimersInv(ScheduleRetry(s, c, retryAt, now))
  {
  }

  lemma UnregisterKeepsTimers(s: Starts, c: string)
    requires TimersInv(s)
    ensures TimersInv(Unregister(s, c))
  {
  }

  lemma StartKeepsTimers(s: Starts, c: string)
    requires TimersInv(s)
    ensures TimersInv(StartQueue(s, c))
  {
    UnregisterKeepsTimers(s, c);
  }

  /** Setting a timer is right exactly for a registered conversation. */
  lemma ScheduleRightExactlyWhen(s: Starts, c: string, retryAt: nat, now: nat, d: string)
    requires ConversationInv(s, d)
    ensures ConversationInv(ScheduleRetry(s, c, retryAt, now), d) <==> d != c || c in s.registered
  {
  }

  /** Starting a queue makes a start without a registration exactly when it is done
      online for a conversation that is not registered. */
  lemma StartAccounts(s: Starts, c: string, d: string)
    ensures StartQueue(s, c).registrations == s.registrations
    ensures Accounts(StartQueue(s, c), d) ==
            Accounts(s, d) + (if s.online && c == d && c !in s.registered then 1 else 0)
  {
  }

  /** Starting a queue is right exactly for a registered conversation. */
  lemma StartRightExactlyWhen(s: Starts, c: string, d: string)
    requires ConversationInv(s, d)
    ensures ConversationInv(StartQueue(s, c), d) <==> d != c || c in s.registered
  {
    StartAccounts(s, c, d);
  }

  lemma DropKeepsConversation(s: Starts, c: string, d: string)
    ensures Accounts(Drop(s, c), d) == Accounts(s, d) && Drop(s, c).registrations == s.registrations
    ensures ConversationInv(s, d) ==> ConversationInv(Drop(s, c), d)
  {
  }

  /** Setting a timer: it is due at the retry time, or at once if that is past, and the
      one it replaces is gone; nothing else changes. */
  lemma ScheduleExactly(s: Starts, c: string, retryAt: nat, now: nat)
    requires TimersInv(s)
    ensures var t := ScheduleRetry(s, c, retryAt, now);
            && WaitsUntil(t, c, if retryAt < now then now else retryAt)
            && (c in s.startTimers ==> s.startTimers[c] !in t.timers)
            && (forall d :: d != c ==> (d in t.startTimers <==> d in s.startTimers))
            && (forall d :: d != c && d in s.startTimers ==>
                  t.startTimers[d] == s.startTimers[d] && t.startTimers[d] in t.timers
                  && t.timers[t.startTimers[d]] == s.timers[s.startTimers[d]])
            && t == s.(timers := t.timers, startTimers := t.startTimers, nextTimer := t.nextTimer)
  {
  }

  /** Starting a queue: offline it is put off, online the conversation is unregistered
      with everything that waits for it, and on its way. */
  lemma StartExactly(s: Starts, c: string)
    requires TimersInv(s)
    ensures var t := StartQueue(s, c);
            if !s.online then t == s.(pendingStarts := s.pendingStarts + {c})
            else
              && t == s.(registered := s.registered - {c}, pendingStarts := s.pendingStarts - {c},
                         startTimers := s.startTimers - {c}, timers := t.timers,
                         stored := Some(s.registered.Keys - {c}), starting := s.starting + multiset{c})
              && (forall h :: h in t.timers <==> h in s.timers && s.timers[h].conversationId != c)
              && (forall h :: h in t.timers ==> t.timers[h] == s.timers[h])
  {
    assert (s.registered - {c}).Keys == s.registered.Keys - {c};
  }

  /** `unregister` called from outside does the same without a start, online or not. */
  lemma DropExactly(s: Starts, c: string)
    requires TimersInv(s)
    ensures var t := Drop(s, c);
            && t == s.(registered := s.registered - {c}, pendingStarts := s.pendingStarts - {c},
                       startTimers := s.startTimers - {c}, timers := t.timers,
                       stored := Some(s.registered.Keys - {c}), dropped := t.dropped)
            && (forall h :: h in t.timers <==> h in s.timers && s.timers[h].conversationId != c)
            && (forall h :: h in t.timers ==> t.timers[h] == s.timers[h])
  {
    assert (s.registered - {c}).Keys == s.registered.Keys - {c};
  }

  // --------------------------------------------------------- all queues

  ghost predicate AllRegistered(s: Starts, cs: seq<string>) {
    NoDuplicates(cs) && forall c :: c in cs ==> c in s.registered
  }

  lemma {:induction false} StartEachKeepsTimers(s: Starts, cs: seq<string>)
    requires TimersInv(s)
    ensures TimersInv(StartEach(s, cs))
    decreases |cs|
  {
    if cs != [] {
      StartKeepsTimers(s, cs[0]);
      hide TimersInv;
      StartEachKeepsTimers(StartQueue(s, cs[0]), cs[1..]);
    }
  }

  lemma {:induction false} StartEachKeepsConversation(s: Starts, cs: seq<string>, d: string)
    requires AllRegistered(s, cs)
    ensures StartEach(s, cs).registrations == s.registrations
    ensures Accounts(StartEach(s, cs), d) == Accounts(s, d)
    ensures ConversationInv(s, d) ==> ConversationInv(StartEach(s, cs), d)
    decreases |cs|
  {
    if cs != [] {
      var c, rest := cs[0], cs[1..];
      assert cs == [c] + rest && c !in rest;
      var u := StartQueue(s, c);
      assert forall x :: x in s.registered && x != c ==> x in u.registered;
      StartAccounts(s, c, d);
      if ConversationInv(s, d) {
        StartRightExactlyWhen(s, c, d);
      }
      hide ConversationInv, Accounts;
      StartEachKeepsConversation(u, rest, d);
    }
  }

  /** Starting several queues one by one: when online they are all unregistered
      and started, when offline they all wait. */
  lemma {:induction false} StartEachStarts(s: Starts, cs: seq<string>)
    ensures SameButStarts(s, StartEach(s, cs))
    ensures s.online ==> Left(s, StartEach(s, cs), ToSet(cs), multiset(cs))
    ensures !s.online ==> StartEach(s, cs) == s.(pendingStarts := s.pendingStarts + ToSet(cs))
    decreases |cs|
  {
    if cs == [] {
      assert s.registered - {} == s.registered && s.startTimers - {} == s.startTimers;
    } else {
      var c, rest := cs[0], cs[1..];
      var u := StartQueue(s, c);
      assert cs == [c] + rest;
      assert ToSet(cs) == {c} + ToSet(rest) && multiset(cs) == multiset{c} + multiset(rest);
      StartEachStarts(u, rest);
      if s.online {
        assert Left(s, u, {c}, multiset{c});
        LeftTwice(s, u, StartEach(u, rest), {c}, ToSet(rest), multiset{c}, multiset(rest));
      }
    }
  }

  predicate SameButStarts(s: Starts, t: Starts) {
    && t.online == s.online && t.rateLimitRetryAt == s.rateLimitRetryAt
    && t.registrations == s.registrations && t.dropped == s.dropped && t.started == s.started
    && t.registering == s.registering
  }

  /** The conversations `gone` are unregistered and started. */
  predicate Left(s: Starts, t: Starts, gone: set<string>, starts: multiset<string>) {
    && t.registered == s.registered - gone
    && t.pendingStarts == s.pendingStarts - gone
    && t.startTimers == s.startTimers - gone
    && t.starting == s.starting + starts
  }

  lemma LeftTwice(s: Starts, t: Starts, u: Starts, a: set<string>, b: set<string>, m: multiset<string>, n: multiset<string>)
    requires Left(s, t, a, m) && Left(t, u, b, n)
    ensures Left(s, u, a + b, m + n)
  {
    assert s.registered - a - b == s.registered - (a + b);
    assert s.startTimers - a - b == s.startTimers - (a + b);
  }

  ghost predicate Enumerates(order: seq<string>, cs: set<string>) {
    NoDuplicates(order) && ToSet(order) == cs
  }

  /** The challenge has a retry time, and that has come. */
  predicate Matured(retryAt: Option<nat>, now: nat) {
    retryAt.Some? && 0 < retryAt.value <= now
  }

  /** After `onOnline` no conversation stays registered whose retry time has come:
      just those are started, once each, and lose their timer, whatever was pending. */
  lemma OnlineStartsMatured(s: Starts, order: seq<string>, now: nat)
    requires Enumerates(order, ToStart(s, false, now))
    ensures var t := GoOnline(s, order);
            && t.online && t.pendingStarts == {}
            && (forall c :: c in t.registered <==> c in s.registered && !Matured(s.registered[c].retryAt, now))
            && (forall c :: c in t.registered ==> t.registered[c] == s.registered[c])
            && (forall c :: t.starting[c] ==
                  s.starting[c] + if c in s.registered && Matured(s.registered[c].retryAt, now) then 1 else 0)
            && (forall c :: c in t.startTimers <==>
                  c in s.startTimers && !(c in s.registered && Matured(s.registered[c].retryAt, now)))
  {
    StartEachStarts(s.(online := true, pendingStarts := {}), order);
    assert {} - ToSet(order) == {};
    forall c
      ensures c in order <==> c in s.registered && Matured(s.registered[c].retryAt, now)
      ensures multiset(order)[c] == if c in s.registered && Matured(s.registered[c].retryAt, now) then 1 else 0
    {
      assert c in order <==> c in ToSet(order);
      OccursOnce(order, c);
    }
  }

  lemma OnlineKeeps(s: Starts, order: seq<string>, now: nat)
    requires Enumerates(order, ToStart(s, false, now))
    ensures TimersInv(s) ==> TimersInv(GoOnline(s, order))
    ensures forall d :: ConversationInv(s, d) ==> ConversationInv(GoOnline(s, order), d)
    ensures forall d :: Accounts(GoOnline(s, order), d) == Accounts(s, d)
    ensures GoOnline(s, order).registrations == s.registrations
  {
    var u := s.(online := true, pendingStarts := {});
    assert forall c :: c in order ==> c in ToSet(order);
    if TimersInv(s) {
      StartEachKeepsTimers(u, order);
    }
    forall d
      ensures ConversationInv(s, d) ==> ConversationInv(GoOnline(s, order), d)
      ensures Accounts(GoOnline(s, order), d) == Accounts(s, d)
      ensures GoOnline(s, order).registrations == s.registrations
    {
      assert Accounts(u, d) == Accounts(s, d) && (ConversationInv(s, d) ==> ConversationInv(u, d));
      StartEachKeepsConversation(u, order, d);
    }
    StartEachKeepsConversation(u, order, "");
  }

  /** A start that was put off until the app is online happens then exactly when
      the challenge has a retry time and that has passed; the others are forgotten. */
  lemma PutOffStartHappensExactlyWhen(s: Starts, order: seq<string>, now: nat, c: string)
    requires Enumerates(order, ToStart(s, false, now)) && c in s.pendingStarts
    ensures c !in GoOnline(s, order).pendingStarts
    ensures GoOnline(s, order).starting[c] > s.starting[c] <==> c in s.registered && Matured(s.registered[c].retryAt, now)
    ensures c in s.registered ==> (c !in GoOnline(s, order).registered <==> Matured(s.registered[c].retryAt, now))
  {
    OnlineStartsMatured(s, order, now);
  }

  lemma {:induction false} OccursOnce(s: seq<string>, c: string)
    requires NoDuplicates(s)
    ensures multiset(s)[c] == if c in s then 1 else 0
  {
    if s != [] {
      assert s == [s[0]] + s[1..] && s[0] !in s[1..];
      OccursOnce(s[1..], c);
    }
  }

  /** The conversation has a timer, which is to fire at `due`. */
  predicate WaitsUntil(s: Starts, c: string, due: nat) {
    c in s.startTimers && s.startTimers[c] in s.timers && s.timers[s.startTimers[c]] == Timer(c, due)
  }

  lemma WaitOnKeeps(s: Starts, c: string, retryAt: nat, now: nat)
    requires c in s.registered
    ensures WaitOn(s, c, retryAt, now).registered.Keys == s.registered.Keys
    ensures TimersInv(s) ==> TimersInv(WaitOn(s, c, retryAt, now))
    ensures forall d :: ConversationInv(s, d) ==> ConversationInv(WaitOn(s, c, retryAt, now), d)
  {
    var u := s.(registered := s.registered[c := s.registered[c].(retryAt := Some(retryAt))]);
    assert u.registered.Keys == s.registered.Keys;
    if TimersInv(s) {
      ScheduleKeepsTimers(u, c, retryAt, now);
    }
    forall d | ConversationInv(s, d)
      ensures ConversationInv(WaitOn(s, c, retryAt, now), d)
    {
      assert d in u.registered <==> d in s.registered;
      ScheduleRightExactlyWhen(u, c, retryAt, now, d);
    }
  }

  lemma {:induction false} WaitOnEachKeeps(s: Starts, retryAt: nat, now: nat, cs: seq<string>)
    ensures WaitOnEach(s, retryAt, now, cs).registered.Keys == s.registered.Keys
    ensures TimersInv(s) ==> TimersInv(WaitOnEach(s, retryAt, now, cs))
    ensures forall d :: ConversationInv(s, d) ==> ConversationInv(WaitOnEach(s, retryAt, now, cs), d)
    decreases |cs|
  {
    if cs != [] {
      if cs[0] in s.registered {
        WaitOnKeeps(s, cs[0], retryAt, now);
        hide TimersInv, ConversationInv, WaitOn;
        WaitOnEachKeeps(WaitOn(s, cs[0], retryAt, now), retryAt, now, cs[1..]);
      } else {
        WaitOnEachKeeps(s, retryAt, now, cs[1..]);
      }
    }
  }

  lemma {:induction false} WaitOnEachAccounts(s: Starts, retryAt: nat, now: nat, cs: seq<string>, d: string)
    ensures WaitOnEach(s, retryAt, now, cs).registrations == s.registrations
    ensures Accounts(WaitOnEach(s, retryAt, now, cs), d) == Accounts(s, d)
    decreases |cs|
  {
    if cs != [] {
      if cs[0] in s.registered {
        WaitOnEachAccounts(WaitOn(s, cs[0], retryAt, now), retryAt, now, cs[1..], d);
      } else {
        WaitOnEachAccounts(s, retryAt, now, cs[1..], d);
      }
    }
  }

  lemma {:induction false} WaitOnEachKeepsTimer(s: Starts, retryAt: nat, now: nat, cs: seq<string>, c: string, due: nat)
    requires TimersInv(s) && WaitsUntil(s, c, due) && c !in cs
    ensures WaitsUntil(WaitOnEach(s, retryAt, now, cs), c, due)
    decreases |cs|
  {
    if cs != [] {
      assert cs[0] != c;
      if cs[0] in s.registered {
        WaitOnKeeps(s, cs[0], retryAt, now);
        WaitOnEachKeepsTimer(WaitOn(s, cs[0], retryAt, now), retryAt, now, cs[1..], c, due);
      } else {
        WaitOnEachKeepsTimer(s, retryAt, now, cs[1..], c, due);
      }
    }
  }

  /** All the conversations wait anew until `retryAt`, each with its own timer. */
  lemma {:induction false} WaitOnEachWaits(s: Starts, retryAt: nat, now: nat, cs: seq<string>, c: string)
    requires TimersInv(s) && c in s.registered
    ensures var t := WaitOnEach(s, retryAt, now, cs);
            && t.registered.Keys == s.registered.Keys
            && t.registered[c] == (if c in cs then s.registered[c].(retryAt := Some(retryAt)) else s.registered[c])
            && (c in cs ==> WaitsUntil(t, c, Max(now, retryAt)))
    decreases |cs|
  {
    if cs != [] {
      if cs[0] in s.registered {
        var u := WaitOn(s, cs[0], retryAt, now);
        WaitOnKeeps(s, cs[0], retryAt, now);
        WaitOnEachWaits(u, retryAt, now, cs[1..], c);
        if c == cs[0] && c !in cs[1..] {
          WaitOnEachKeepsTimer(u, retryAt, now, cs[1..], c, Max(now, retryAt));
        }
      } else {
        WaitOnEachWaits(s, retryAt, now, cs[1..], c);
      }
    }
  }

  /** After a failed captcha every registration has the new retry time, as has the rate
      limit, and a timer that is due then, or at once if that is past.  Nothing else of
      the registrations changes, and nothing is put off or started. */
  lemma AllWaitAfterFailure(s: Starts, retryAt: nat, now: nat, order: seq<string>)
    requires TimersInv(s) && Enumerates(order, s.registered.Keys)
    ensures var t := ForceWaitOnAll(s, retryAt, now, order);
            && TimersInv(t) && t.registered.Keys == s.registered.Keys
            && t.rateLimitRetryAt == Some(retryAt)
            && (forall c :: c in t.registered ==>
                  && t.registered[c] == s.registered[c].(retryAt := Some(retryAt))
                  && WaitsUntil(t, c, if retryAt < now then now else retryAt))
            && t.pendingStarts == s.pendingStarts && t.starting == s.starting && t.online == s.online
            && t.registering == s.registering
  {
    var u := s.(rateLimitRetryAt := Some(retryAt));
    WaitOnEachKeeps(u, retryAt, now, order);
    WaitOnEachOnlyWaits(u, retryAt, now, order);
    forall c | c in s.registered
      ensures var t := ForceWaitOnAll(s, retryAt, now, order);
              && t.registered[c] == s.registered[c].(retryAt := Some(retryAt))
              && WaitsUntil(t, c, if retryAt < now then now else retryAt)
    {
      assert c in ToSet(order);
      WaitOnEachWaits(u, retryAt, now, order, c);
    }
  }

  lemma {:induction false} WaitOnEachOnlyWaits(s: Starts, retryAt: nat, now: nat, cs: seq<string>)
    ensures var t := WaitOnEach(s, retryAt, now, cs);
            && t.rateLimitRetryAt == s.rateLimitRetryAt && t.online == s.online
            && t.pendingStarts == s.pendingStarts && t.starting == s.starting && t.registering == s.registering
    decreases |cs|
  {
    if cs != [] {
      WaitOnEachOnlyWaits(if cs[0] in s.registered then WaitOn(s, cs[0], retryAt, now) else s, retryAt, now, cs[1..]);
    }
  }

  lemma FailureKeepsConversation(s: Starts, retryAt: nat, now: nat, order: seq<string>, d: string)
    ensures ForceWaitOnAll(s, retryAt, now, order).registrations == s.registrations
    ensures Accounts(ForceWaitOnAll(s, retryAt, now, order), d) == Accounts(s, d)
    ensures ConversationInv(s, d) ==> ConversationInv(ForceWaitOnAll(s, retryAt, now, order), d)
  {
    var u := s.(rateLimitRetryAt := Some(retryAt));
    WaitOnEachKeeps(u, retryAt, now, order);
    WaitOnEachAccounts(u, retryAt, now, order, d);
    assert Accounts(u, d) == Accounts(s, d) && (ConversationInv(s, d) ==> ConversationInv(u, d));
  }

  // ------------------------------------------------------- firing, registering

  lemma FiringKeepsTimers(s: Starts, h: nat)
    requires TimersInv(s) && h in s.timers
    ensures TimersInv(FireTimer(s, h))
  {
    var c := s.timers[h].conversationId;
    StartKeepsTimers(s.(timers := s.timers - {h}, startTimers := s.startTimers - {c}, rateLimitRetryAt := None), c);
  }

  lemma FiringKeepsConversation(s: Starts, h: nat, d: string)
    requires h in s.timers
    ensures FireTimer(s, h).registrations == s.registrations
    ensures var c := s.timers[h].conversationId;
            Accounts(FireTimer(s, h), d) == Accounts(s, d) + (if s.online && c == d && c !in s.registered then 1 else 0)
    ensures TimersInv(s) && ConversationInv(s, d) ==> ConversationInv(FireTimer(s, h), d)
  {
    var c := s.timers[h].conversationId;
    var u := s.(timers := s.timers - {h}, startTimers := s.startTimers - {c}, rateLimitRetryAt := None);
    assert Accounts(u, d) == Accounts(s, d);
    StartAccounts(u, c, d);
    if TimersInv(s) && ConversationInv(s, d) {
      assert c in s.startTimers;
      StartRightExactlyWhen(u, c, d);
    }
  }

  /** A timer that fires lifts the rate limit, is gone, and starts its queue. */
  lemma FiringStarts(s: Starts, h: nat)
    requires TimersInv(s) && h in s.timers
    ensures var t, c := FireTimer(s, h), s.timers[h].conversationId;
            && t.rateLimitRetryAt == None && t.timers == s.timers - {h} && t.startTimers == s.startTimers - {c}
            && t.registering == s.registering && t.online == s.online
            && if s.online
               then t.registered == s.registered - {c} && t.pendingStarts == s.pendingStarts - {c}
                    && t.starting == s.starting + multiset{c}
               else t.registered == s.registered && t.pendingStarts == s.pendingStarts + {c} && t.starting == s.starting
  {
  }

  lemma RegisterKeeps(s: Starts, c: string, ch: Challenge, wantsCaptcha: bool)
    ensures TimersInv(s) ==> TimersInv(Register(s, c, ch, wantsCaptcha))
  {
    if c !in s.registered {
      assert Register(s, c, ch, wantsCaptcha).registered.Keys == s.registered.Keys + {c};
    }
  }

  lemma RegisterKeepsConversation(s: Starts, c: string, ch: Challenge, wantsCaptcha: bool, d: string)
    ensures var t := Register(s, c, ch, wantsCaptcha);
            && Accounts(t, d) + s.registrations[d] == Accounts(s, d) + t.registrations[d]
            && (ConversationInv(s, d) ==> ConversationInv(t, d))
  {
  }

  /** A `register` that goes on starts a queue or sets a timer. */
  predicate Acts(s: Starts, r: Registering) {
    || (s.rateLimitRetryAt.Some? && s.rateLimitRetryAt.value > 0)
    || (r.challenge.retryAt.Some? && r.challenge.retryAt.value > 0)
  }

  /** A first `register` remembers its challenge and goes on with it later; another one
      for the same conversation does nothing. */
  lemma RegisterExactly(s: Starts, c: string, ch: Challenge, wantsCaptcha: bool)
    ensures Register(s, c, ch, wantsCaptcha) ==
            if c in s.registered then s
            else s.(registered := s.registered[c := ch], stored := Some(s.registered.Keys + {c}),
                    registering := s.registering[s.calls := Registering(c, ch, wantsCaptcha)], calls := s.calls + 1,
                    registrations := s.registrations + multiset{c})
  {
    assert s.registered[c := ch].Keys == s.registered.Keys + {c};
  }

  /** What a `register` does when it goes on: a matured challenge is started or put
      off at once; */
  lemma ResumeStartsMatured(s: Starts, k: nat, now: nat)
    requires TimersInv(s) && k in s.registering && Matured(s.registering[k].challenge.retryAt, now)
    ensures var t, c := ResumeRegister(s, k, now), s.registering[k].conversationId;
            && t.registering == s.registering - {k} && t.rateLimitRetryAt == s.rateLimitRetryAt && t.online == s.online
            && if s.online
               then t.registered == s.registered - {c} && t.startTimers == s.startTimers - {c}
                    && t.pendingStarts == s.pendingStarts - {c} && t.starting == s.starting + multiset{c}
               else t == s.(registering := s.registering - {k}, pendingStarts := s.pendingStarts + {c})
  {
    var t := s.(registering := s.registering - {k});
    assert TimersInv(t);
    hide TimersInv;
    StartExactly(t, s.registering[k].conversationId);
    hide StartQueue;
  }

  /** otherwise it waits for the end of the rate limit, if there is one, or else for its
      own retry time, if it has one. */
  lemma ResumeWaitsExactly(s: Starts, k: nat, now: nat)
    requires TimersInv(s) && k in s.registering && !Matured(s.registering[k].challenge.retryAt, now)
    ensures var r, t := s.registering[k], ResumeRegister(s, k, now);
            && t == s.(registering := s.registering - {k}, timers := t.timers, startTimers := t.startTimers, nextTimer := t.nextTimer)
            && if s.rateLimitRetryAt.Some? && s.rateLimitRetryAt.value > 0 then
                 WaitsUntil(t, r.conversationId, if s.rateLimitRetryAt.value < now then now else s.rateLimitRetryAt.value)
               else if r.challenge.retryAt.Some? && r.challenge.retryAt.value > 0 then
                 WaitsUntil(t, r.conversationId, r.challenge.retryAt.value)
               else t.startTimers == s.startTimers && t.timers == s.timers
  {
    var r := s.registering[k];
    var t := s.(registering := s.registering - {k});
    assert TimersInv(t);
    hide TimersInv;
    if s.rateLimitRetryAt.Some? {
      ScheduleExactly(t, r.conversationId, s.rateLimitRetryAt.value, now);
    }
    if r.challenge.retryAt.Some? {
      ScheduleExactly(t, r.conversationId, r.challenge.retryAt.value, now);
    }
    hide WaitsUntil, StartQueue, ScheduleRetry;
  }

  /** And whether it then shows a captcha: only while waiting, if it may and has a
      token for one. */
  lemma CaptchaShownExactlyWhen(r: Registering, now: nat)
    ensures CaptchaFor(r, now) ==
            if !Matured(r.challenge.retryAt, now) && r.wantsCaptcha && !r.challenge.silent && r.challenge.token != Some("")
            then r.challenge.token else None
  {
  }

  lemma ResumeKeepsTimers(s: Starts, k: nat, now: nat)
    requires TimersInv(s) && k in s.registering
    ensures TimersInv(ResumeRegister(s, k, now))
  {
    var r := s.registering[k];
    var t := s.(registering := s.registering - {k});
    StartKeepsTimers(t, r.conversationId);
    if NonZero(t.rateLimitRetryAt) {
      ScheduleKeepsTimers(t, r.conversationId, t.rateLimitRetryAt.value, now);
    } else if NonZero(r.challenge.retryAt) {
      ScheduleKeepsTimers(t, r.conversationId, r.challenge.retryAt.value, now);
    }
  }

  lemma ResumeAccounts(s: Starts, k: nat, now: nat, d: string)
    requires k in s.registering
    ensures ResumeRegister(s, k, now).registrations == s.registrations
    ensures var r := s.registering[k];
            Accounts(ResumeRegister(s, k, now), d) ==
            Accounts(s, d) + (if s.online && Matured(r.challenge.retryAt, now) && r.conversationId == d && d !in s.registered then 1 else 0)
  {
    var t := s.(registering := s.registering - {k});
    StartAccounts(t, s.registering[k].conversationId, d);
  }

  /** A `register` that goes on after its conversation was unregistered starts a
      queue, or leaves a timer or a put-off start, for a conversation that is not
      registered: it does so exactly when there is something to start or to wait for. */
  lemma ResumedRegisterIsRightExactlyWhen(s: Starts, k: nat, now: nat, d: string)
    requires k in s.registering && ConversationInv(s, d)
    ensures var r := s.registering[k];
            ConversationInv(ResumeRegister(s, k, now), d) <==>
              d != r.conversationId || d in s.registered || !Acts(s, r)
  {
    var r := s.registering[k];
    var t := s.(registering := s.registering - {k});
    assert ConversationInv(t, d);
    StartRightExactlyWhen(t, r.conversationId, d);
    if NonZero(t.rateLimitRetryAt) {
      ScheduleRightExactlyWhen(t, r.conversationId, t.rateLimitRetryAt.value, now, d);
    } else if NonZero(r.challenge.retryAt) {
      ScheduleRightExactlyWhen(t, r.conversationId, r.challenge.retryAt.value, now, d);
    }
  }
}
