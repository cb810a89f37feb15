/** All steps of the challenge handler: what one turn of the event loop does,
    from a call, a fired timer or a settled promise to the next `await`. */
module Challenge {
  import opened Common
  import opened ChallengeStarts
  import opened CaptchaSolves

  datatype State = State(loaded: bool, starts: Starts, solves: Solves)

  const INITIAL := State(false, NO_STARTS, NO_SOLVES)

  /** A registered conversation, as it is stored. */
  type Stored = (string, Challenge)

  datatype Event =
    | Load(challenges: seq<Stored>, now: nat, expireAfter: nat)
    | Online(now: nat, order: seq<string>)
    | Offline
    | MaybeSolveCall(conversationId: string)
    | RegisterCall(conversationId: string, challenge: Challenge, wantsCaptcha: bool)
    | RegisterResumes(call: nat, now: nat)
    | UnregisterCall(conversationId: string)
    | QueueStarts(conversationId: string)
    | TimerFires(timer: nat, now: nat)
    | CaptchaRequest
    | Response(seqNo: nat, captcha: string)
    | SolveResumes(solve: nat)
    | SendSucceeds(solve: nat, order: seq<string>)
    | SendFails(solve: nat, retryAt: nat, now: nat, order: seq<string>)

  predicate IsOlderThan(createdAt: nat, expireAfter: nat, now: nat) {
    createdAt <= now - expireAfter
  }

  function RegisterAll(s: Starts, challenges: seq<Stored>, now: nat, expireAfter: nat): Starts
    decreases |challenges|
  {
    if challenges == [] then s
    else
      var (c, ch) := challenges[0];
      var t := if IsOlderThan(ch.createdAt, expireAfter, now) then s else Register(s, c, ch, true);
      RegisterAll(t, challenges[1..], now, expireAfter)
  }

  ghost predicate CanHappen(s: State, e: Event) {
    match e
    case Online(now, order) => Enumerates(order, ToStart(s.starts, false, now))
    case RegisterResumes(call, _) => call in s.starts.registering
    case QueueStarts(c) => c in s.starts.starting
    case TimerFires(timer, now) => timer in s.starts.timers && s.starts.timers[timer].due <= now
    case SolveResumes(k) => k in s.solves.calls && s.solves.calls[k].GotCaptcha?
    case SendSucceeds(k, order) =>
      k in s.solves.calls && s.solves.calls[k].Sending? && Enumerates(order, s.starts.registered.Keys)
    case SendFails(k, _, _, order) =>
      k in s.solves.calls && s.solves.calls[k].Sending? && Enumerates(order, s.starts.registered.Keys)
    case _ => true
  }

  function MaybeSolve(s: State, c: string): State {
    if c !in s.starts.registered || s.solves.solving > 0 || NonZero(s.starts.rateLimitRetryAt) then s
    else
      var token := s.starts.registered[c].token;
      if token.Some? && token.value != "" then s.(solves := StartSolve(s.solves, token.value)) else s
  }

  lemma SolvingChangesSolves(s: State, c: string)
    ensures MaybeSolve(s, c) == s.(solves := MaybeSolve(s, c).solves)
  {
  }

  function ResumeRegistration(s: State, call: nat, now: nat): State
    requires call in s.starts.registering
  {
    var token := CaptchaFor(s.starts.registering[call], now);
    State(s.loaded, ResumeRegister(s.starts, call, now),
          if token.Some? then StartSolve(s.solves, token.value) else s.solves)
  }

  ghost function Step(s: State, e: Event): State
    requires CanHappen(s, e)
  {
    match e
    case Load(challenges, now, expireAfter) =>
      if s.loaded then s else s.(loaded := true, starts := RegisterAll(s.starts, challenges, now, expireAfter))
    case Online(_, order) => s.(starts := GoOnline(s.starts, order))
    case Offline => s.(starts := s.starts.(online := false))
    case MaybeSolveCall(c) => MaybeSolve(s, c)
    case RegisterCall(c, ch, wantsCaptcha) => s.(starts := Register(s.starts, c, ch, wantsCaptcha))
    case RegisterResumes(call, now) => ResumeRegistration(s, call, now)
    case UnregisterCall(c) => s.(starts := Drop(s.starts, c))
    case QueueStarts(c) => s.(starts := Started(s.starts, c))
    case TimerFires(timer, _) => s.(starts := FireTimer(s.starts, timer))
    case CaptchaRequest => s.(solves := RequestCaptcha(s.solves, Outside))
    case Response(seqNo, captcha) => s.(solves := OnResponse(s.solves, seqNo, captcha))
    case SolveResumes(k) => s.(solves := ResumeSolve(s.solves, k))
    case SendSucceeds(k, order) => State(s.loaded, StartEach(s.starts, order), FinishSolve(s.solves, k))
    case SendFails(k, retryAt, now, order) =>
      State(s.loaded, ForceWaitOnAll(s.starts, retryAt, now, order), FinishSolve(s.solves, k))
  }

  // ---------------------------------------------------------------- safety

  /** One timer each and the right ids stored, whatever happens. */
  lemma StepKeepsTimers(s: State, e: Event)
    requires TimersInv(s.starts) && CanHappen(s, e)
    ensures TimersInv(Step(s, e).starts)
  {
    match e {
      case Load(challenges, now, expireAfter) => RegisterAllKeeps(s.starts, challenges, now, expireAfter);
      case Online(now, order) => OnlineKeeps(s.starts, order, now);
      case RegisterCall(c, ch, wantsCaptcha) => RegisterKeeps(s.starts, c, ch, wantsCaptcha);
      case RegisterResumes(call, now) => ResumeKeepsTimers(s.starts, call, now);
      case UnregisterCall(c) => UnregisterKeepsTimers(s.starts, c);
      case TimerFires(timer, _) => FiringKeepsTimers(s.starts, timer);
      case SendSucceeds(_, order) => StartEachKeepsTimers(s.starts, order);
      case SendFails(_, retryAt, now, order) => AllWaitAfterFailure(s.starts, retryAt, now, order);
      case _ =>
    }
  }

  lemma {:induction false} RegisterAllKeeps(s: Starts, challenges: seq<Stored>, now: nat, expireAfter: nat)
    ensures TimersInv(s) ==> TimersInv(RegisterAll(s, challenges, now, expireAfter))
    decreases |challenges|
  {
    if challenges != [] {
      var (c, ch) := challenges[0];
      RegisterKeeps(s, c, ch, true);
      hide TimersInv, Register;
      RegisterAllKeeps(if IsOlderThan(ch.createdAt, expireAfter, now) then s else Register(s, c, ch, true),
                       challenges[1..], now, expireAfter);
    }
  }

  lemma {:induction false} RegisterAllKeepsConversation(s: Starts, challenges: seq<Stored>, now: nat, expireAfter: nat, d: string)
    ensures var t := RegisterAll(s, challenges, now, expireAfter);
            && Accounts(t, d) + s.registrations[d] == Accounts(s, d) + t.registrations[d]
            && (ConversationInv(s, d) ==> ConversationInv(t, d))
    decreases |challenges|
  {
    if challenges != [] {
      var (c, ch) := challenges[0];
      RegisterKeepsConversation(s, c, ch, true, d);
      hide ConversationInv, Register, Accounts;
      RegisterAllKeepsConversation(if IsOlderThan(ch.createdAt, expireAfter, now) then s else Register(s, c, ch, true),
                                   challenges[1..], now, expireAfter, d);
    }
  }

  /** The step is no `register` of `d` that resumes too late: see
      `ResumedRegisterIsRightExactlyWhen`. */
  ghost predicate InTime(s: State, e: Event, d: string)
    requires CanHappen(s, e)
  {
    e.RegisterResumes? && s.starts.registering[e.call].conversationId == d ==>
      d in s.starts.registered || !Acts(s.starts, s.starts.registering[e.call])
  }

  lemma StepKeepsConversation(s: State, e: Event, d: string)
    requires TimersInv(s.starts) && ConversationInv(s.starts, d) && CanHappen(s, e)
    ensures InTime(s, e, d) <==> ConversationInv(Step(s, e).starts, d)
  {
    match e {
      case Load(challenges, now, expireAfter) => RegisterAllKeepsConversation(s.starts, challenges, now, expireAfter, d);
      case Online(now, order) => OnlineKeeps(s.starts, order, now);
      case RegisterCall(c, ch, wantsCaptcha) => RegisterKeepsConversation(s.starts, c, ch, wantsCaptcha, d);
      case RegisterResumes(call, now) => ResumedRegisterIsRightExactlyWhen(s.starts, call, now, d);
      case UnregisterCall(c) => DropKeepsConversation(s.starts, c, d);
      case TimerFires(timer, _) => FiringKeepsConversation(s.starts, timer, d);
      case SendSucceeds(_, order) =>
        assert forall c :: c in order ==> c in ToSet(order);
        StartEachKeepsConversation(s.starts, order, d);
      case SendFails(_, retryAt, now, order) => FailureKeepsConversation(s.starts, retryAt, now, order, d);
      case _ => OtherStepsKeepConversation(s, e, d);
    }
  }

  lemma OtherStepsKeepConversation(s: State, e: Event, d: string)
    requires CanHappen(s, e)
    requires e.Offline? || e.MaybeSolveCall? || e.QueueStarts? || e.CaptchaRequest? || e.Response? || e.SolveResumes?
    ensures Accounts(Step(s, e).starts, d) == Accounts(s.starts, d)
    ensures Step(s, e).starts.registrations == s.starts.registrations
    ensures ConversationInv(s.starts, d) ==> ConversationInv(Step(s, e).starts, d)
  {
  }

  /** The step starts the queue of `d` although `d` is not registered. */
  ghost predicate StartsUnregistered(s: State, e: Event, d: string)
    requires CanHappen(s, e)
  {
    && s.starts.online && d !in s.starts.registered
    && match e
       case RegisterResumes(call, now) =>
         s.starts.registering[call].conversationId == d && Matured(s.starts.registering[call].challenge.retryAt, now)
       case TimerFires(timer, _) => s.starts.timers[timer].conversationId == d
       case _ => false
  }

  lemma StepAccounts(s: State, e: Event, d: string)
    requires CanHappen(s, e)
    ensures var t := Step(s, e).starts;
            Accounts(t, d) + s.starts.registrations[d] ==
            Accounts(s.starts, d) + t.registrations[d] + (if StartsUnregistered(s, e, d) then 1 else 0)
  {
    match e {
      case Load(challenges, now, expireAfter) => RegisterAllKeepsConversation(s.starts, challenges, now, expireAfter, d);
      case Online(now, order) => OnlineKeeps(s.starts, order, now);
      case RegisterCall(c, ch, wantsCaptcha) => RegisterKeepsConversation(s.starts, c, ch, wantsCaptcha, d);
      case RegisterResumes(call, now) => ResumeAccounts(s.starts, call, now, d);
      case UnregisterCall(c) => DropKeepsConversation(s.starts, c, d);
      case TimerFires(timer, _) => FiringKeepsConversation(s.starts, timer, d);
      case SendSucceeds(_, order) =>
        assert forall c :: c in order ==> c in ToSet(order);
        StartEachKeepsConversation(s.starts, order, d);
      case SendFails(_, retryAt, now, order) => FailureKeepsConversation(s.starts, retryAt, now, order, d);
      case _ => OtherStepsKeepConversation(s, e, d);
    }
  }

  lemma SolvesStepKeepsInv(s: State, e: Event)
    requires SolvesInv(s.solves) && CanHappen(s, e)
    ensures SolvesInv(Step(s, e).solves)
  {
    match e {
      case MaybeSolveCall(c) =>
        if c in s.starts.registered && s.starts.registered[c].token.Some? {
          StartSolveKeepsInv(s.solves, s.starts.registered[c].token.value);
        }
      case RegisterResumes(call, now) =>
        var token := CaptchaFor(s.starts.registering[call], now);
        if token.Some? {
          StartSolveKeepsInv(s.solves, token.value);
        }
      case CaptchaRequest => RequestKeepsInv(s.solves);
      case Response(seqNo, captcha) => ResponseKeepsInv(s.solves, seqNo, captcha);
      case SolveResumes(k) => ResumeKeepsInv(s.solves, k);
      case SendSucceeds(k, _) => FinishKeepsInv(s.solves, k);
      case SendFails(k, _, _, _) => FinishKeepsInv(s.solves, k);
      case _ =>
    }
  }

  /** Any step keeps what always holds, and what holds of each conversation unless
      it is a `register` of that one that resumes too late. */
  lemma StepIsSafe(s: State, e: Event)
    requires TimersInv(s.starts) && SolvesInv(s.solves) && CanHappen(s, e)
    ensures TimersInv(Step(s, e).starts) && SolvesInv(Step(s, e).solves)
    ensures forall d :: ConversationInv(s.starts, d) && InTime(s, e, d) ==> ConversationInv(Step(s, e).starts, d)
  {
    StepKeepsTimers(s, e);
    SolvesStepKeepsInv(s, e);
    forall d | ConversationInv(s.starts, d) && InTime(s, e, d)
      ensures ConversationInv(Step(s, e).starts, d)
    {
      StepKeepsConversation(s, e, d);
    }
  }

  // ------------------------------------------------- what some steps do

  /** Position `i` of the stored challenges is the first of its conversation that has
      not expired. */
  ghost predicate FirstLive(challenges: seq<Stored>, now: nat, expireAfter: nat, i: nat, c: string) {
    && i < |challenges| && challenges[i].0 == c && now < challenges[i].1.createdAt + expireAfter
    && forall j :: 0 <= j < i ==> challenges[j].0 != c || challenges[j].1.createdAt + expireAfter <= now
  }

  lemma FirstLiveInRest(challenges: seq<Stored>, now: nat, expireAfter: nat, i: nat, c: string)
    requires 0 < i && challenges != []
    ensures FirstLive(challenges, now, expireAfter, i, c) <==>
              FirstLive(challenges[1..], now, expireAfter, i - 1, c) && !FirstLive(challenges, now, expireAfter, 0, c)
  {
    var rest := challenges[1..];
    assert forall j :: 0 < j < |challenges| ==> challenges[j] == rest[j - 1];
    if FirstLive(challenges, now, expireAfter, i, c) {
      assert forall j :: 0 <= j < i - 1 ==> rest[j] == challenges[j + 1];
    }
  }

  /** Loading registers the conversations with a challenge that has not expired, each
      with the first such challenge, unless it was registered before. */
  lemma {:induction false} LoadExactly(s: Starts, challenges: seq<Stored>, now: nat, expireAfter: nat, c: string)
    ensures var t := RegisterAll(s, challenges, now, expireAfter);
            && t.pendingStarts == s.pendingStarts && t.startTimers == s.startTimers && t.starting == s.starting
            && (c in s.registered ==> c in t.registered && t.registered[c] == s.registered[c])
            && (c !in s.registered && c in t.registered ==>
                  exists i: nat :: FirstLive(challenges, now, expireAfter, i, c) && t.registered[c] == challenges[i].1)
            && (c !in s.registered && (exists i: nat :: FirstLive(challenges, now, expireAfter, i, c)) ==> c in t.registered)
    decreases |challenges|
  {
    if challenges != [] {
      var (d, ch) := challenges[0];
      var rest := challenges[1..];
      var t := RegisterAll(s, challenges, now, expireAfter);
      var u := if now < ch.createdAt + expireAfter then Register(s, d, ch, true) else s;
      RegisterExactly(s, d, ch, true);
      LoadExactly(u, rest, now, expireAfter, c);
      assert t == RegisterAll(u, rest, now, expireAfter);
      hide RegisterAll, Register;
      if c !in s.registered && !FirstLive(challenges, now, expireAfter, 0, c) {
        hide FirstLive;
        if c in t.registered {
          var i: nat :| FirstLive(rest, now, expireAfter, i, c) && t.registered[c] == rest[i].1;
          FirstLiveInRest(challenges, now, expireAfter, i + 1, c);
          assert i + 1 - 1 == i && FirstLive(challenges, now, expireAfter, i + 1, c);
        }
        if i: nat :| FirstLive(challenges, now, expireAfter, i, c) {
          FirstLiveInRest(challenges, now, expireAfter, i, c);
        }
      }
    }
  }

  /** `maybeSolve` starts a solve only when none is in flight and no rate limit runs, for
      a registered conversation with a token. */
  lemma MaybeSolveExactly(s: State, c: string)
    ensures var t := Step(s, MaybeSolveCall(c));
            var may := c in s.starts.registered && s.solves.solving <= 0
                       && (s.starts.rateLimitRetryAt == None || s.starts.rateLimitRetryAt == Some(0))
                       && s.starts.registered[c].token != None && s.starts.registered[c].token != Some("");
            t == if may then s.(solves := StartSolve(s.solves, s.starts.registered[c].token.value)) else s
  {
  }

  /** A `register` that goes on starts a solve only while it waits, if it may show a
      captcha and has a token. */
  lemma RegisterSolvesExactly(s: State, call: nat, now: nat)
    requires CanHappen(s, RegisterResumes(call, now))
    ensures var t, r := Step(s, RegisterResumes(call, now)), s.starts.registering[call];
            && t.loaded == s.loaded && t.starts == ResumeRegister(s.starts, call, now)
            && t.solves ==
               if !Matured(r.challenge.retryAt, now) && r.wantsCaptcha && !r.challenge.silent
                  && r.challenge.token != None && r.challenge.token != Some("")
               then StartSolve(s.solves, r.challenge.token.value) else s.solves
  {
    CaptchaShownExactlyWhen(s.starts.registering[call], now);
  }

  /** A solve that the server accepts starts everything that is registered, or puts it
      off while offline; one that it refuses makes everything wait.  Either ends. */
  lemma SendEndsExactly(s: State, e: Event)
    requires SolvesInv(s.solves) && CanHappen(s, e) && (e.SendSucceeds? || e.SendFails?)
    ensures var t := Step(s, e);
            && t.solves == s.solves.(calls := s.solves.calls - {e.solve}, solving := |s.solves.calls| - 1)
            && (e.SendFails? ==> t.starts == ForceWaitOnAll(s.starts, e.retryAt, e.now, e.order))
            && (e.SendSucceeds? ==>
                  if s.starts.online then
                    && t.starts.registered == map[] && t.starts.pendingStarts == s.starts.pendingStarts - s.starts.registered.Keys
                    && forall c :: t.starts.starting[c] == s.starts.starting[c] + if c in s.starts.registered then 1 else 0
                  else t.starts == s.starts.(pendingStarts := s.starts.pendingStarts + s.starts.registered.Keys))
  {
    if e.SendSucceeds? {
      StartEachStarts(s.starts, e.order);
      forall c
        ensures multiset(e.order)[c] == if c in s.starts.registered then 1 else 0
      {
        assert c in e.order <==> c in ToSet(e.order);
        OccursOnce(e.order, c);
      }
    }
  }

  /** Whatever awaits something can go on: a timer from when it is due, a `register` and
      a start once the storage has answered, a solve with its captcha. */
  lemma WhatAwaitsCanGoOn(s: State, k: nat, now: nat, c: string, order: seq<string>)
    ensures k in s.starts.timers && s.starts.timers[k].due <= now ==> CanHappen(s, TimerFires(k, now))
    ensures k in s.starts.registering ==> CanHappen(s, RegisterResumes(k, now))
    ensures s.starts.starting[c] > 0 ==> CanHappen(s, QueueStarts(c))
    ensures k in s.solves.calls && s.solves.calls[k].GotCaptcha? ==> CanHappen(s, SolveResumes(k))
    ensures k in s.solves.calls && s.solves.calls[k].Sending? && Enumerates(order, s.starts.registered.Keys) ==>
              CanHappen(s, SendSucceeds(k, order)) && forall retryAt :: CanHappen(s, SendFails(k, retryAt, now, order))
    ensures Enumerates(order, ToStart(s.starts, false, now)) ==> CanHappen(s, Online(now, order))
  {
  }

  /** Going offline and the end of a start, which are all there is to these steps. */
  lemma OfflineAndStarted(s: State, c: string)
    ensures Step(s, Offline) == s.(starts := s.starts.(online := false))
    ensures c in s.starts.starting ==>
              Step(s, QueueStarts(c)) ==
              s.(starts := s.starts.(starting := s.starts.starting - multiset{c}, started := s.starts.started + multiset{c}))
    ensures !s.loaded ==> forall es, now, after ::
              Step(s, Load(es, now, after)) == State(true, RegisterAll(s.starts, es, now, after), s.solves)
    ensures s.loaded ==> forall es, now, after :: Step(s, Load(es, now, after)) == s
  {
  }

  // ------------------------------------------------------------------- runs

  ghost predicate Run(s: State, es: seq<Event>)
    decreases |es|
  {
    es != [] ==> CanHappen(s, es[0]) && Run(Step(s, es[0]), es[1..])
  }

  ghost function After(s: State, es: seq<Event>): State
    requires Run(s, es)
    decreases |es|
  {
    if es == [] then s else After(Step(s, es[0]), es[1..])
  }

  /** No `register` of `d` resumes too late. */
  ghost predicate AllInTime(s: State, es: seq<Event>, d: string)
    requires Run(s, es)
    decreases |es|
  {
    es != [] ==> InTime(s, es[0], d) && AllInTime(Step(s, es[0]), es[1..], d)
  }

  /** In any overlap of solves, whatever else happens. */
  lemma {:induction false} EveryRunKeepsSolves(s: State, es: seq<Event>)
    requires SolvesInv(s.solves) && Run(s, es)
    ensures SolvesInv(After(s, es).solves)
    decreases |es|
  {
    if es != [] {
      SolvesStepKeepsInv(s, es[0]);
      EveryRunKeepsSolves(Step(s, es[0]), es[1..]);
    }
  }

  /** At most one running timer for each conversation, and the stored ids are the
      registered ones, whatever happens. */
  lemma {:induction false} EveryRunKeepsTimers(s: State, es: seq<Event>)
    requires TimersInv(s.starts) && Run(s, es)
    ensures TimersInv(After(s, es).starts)
    decreases |es|
  {
    if es != [] {
      StepKeepsTimers(s, es[0]);
      EveryRunKeepsTimers(Step(s, es[0]), es[1..]);
    }
  }

  /** A timer and a put-off start of `d` are of a registered conversation, in every
      run in which no `register` of `d` itself resumes too late, whatever happens to
      other conversations. */
  lemma {:induction false} EveryRunKeepsStarts(s: State, es: seq<Event>, d: string)
    requires TimersInv(s.starts) && ConversationInv(s.starts, d) && Run(s, es) && AllInTime(s, es, d)
    ensures ConversationInv(After(s, es).starts, d)
    decreases |es|
  {
    if es != [] {
      StepKeepsTimers(s, es[0]);
      StepKeepsConversation(s, es[0], d);
      EveryRunKeepsStarts(Step(s, es[0]), es[1..], d);
    }
  }

  /** How often the queue of `d` is started without being registered. */
  ghost function UnregisteredStarts(s: State, es: seq<Event>, d: string): nat
    requires Run(s, es)
    decreases |es|
  {
    if es == [] then 0
    else (if StartsUnregistered(s, es[0], d) then 1 else 0) + UnregisteredStarts(Step(s, es[0]), es[1..], d)
  }

  lemma {:induction false} RunAccounts(s: State, es: seq<Event>, d: string)
    requires Run(s, es)
    ensures Accounts(After(s, es).starts, d) + s.starts.registrations[d] ==
            Accounts(s.starts, d) + After(s, es).starts.registrations[d] + UnregisteredStarts(s, es, d)
    decreases |es|
  {
    if es != [] {
      StepAccounts(s, es[0], d);
      hide Accounts, Step, StartsUnregistered;
      RunAccounts(Step(s, es[0]), es[1..], d);
    }
  }

  /** In every run, each registration is still there, or was dropped, or caused one
      start; beyond that there are just the starts made while not registered.  So no
      registration causes two starts exactly when there are none of those. */
  lemma OneStartPerRegistration(es: seq<Event>, d: string)
    requires Run(INITIAL, es)
    ensures var t := After(INITIAL, es).starts;
            && Accounts(t, d) == t.registrations[d] + UnregisteredStarts(INITIAL, es, d)
            && (Accounts(t, d) <= t.registrations[d] <==> UnregisteredStarts(INITIAL, es, d) == 0)
            && (AllInTime(INITIAL, es, d) ==> UnregisteredStarts(INITIAL, es, d) == 0)
  {
    RunAccounts(INITIAL, es, d);
    if AllInTime(INITIAL, es, d) {
      EveryRunKeepsStarts(INITIAL, es, d);
    }
  }

  /** A run of two steps or more starts with its first. */
  lemma RunStep(s: State, e: Event, es: seq<Event>)
    requires CanHappen(s, e) && Run(Step(s, e), es)
    ensures Run(s, [e] + es) && After(s, [e] + es) == After(Step(s, e), es)
  {
    assert ([e] + es)[1..] == es;
  }

  const RETRY_AT_FIVE := Challenge(0, Some(5), None, false)

  /** Going online while `register` awaits the storage makes one registration cause
      two starts. */
  lemma LateRegisterStartsTwice()
    ensures var es := [RegisterCall("a", RETRY_AT_FIVE, true), Online(5, ["a"]), RegisterResumes(0, 5)];
            && Run(INITIAL, es)
            && After(INITIAL, es).starts.starting["a"] == 2 && After(INITIAL, es).starts.registrations["a"] == 1
  {
    var e1, e2, e3 := RegisterCall("a", RETRY_AT_FIVE, true), Online(5, ["a"]), RegisterResumes(0, 5);
    var s1 := Step(INITIAL, e1);
    assert s1.starts.registered == map["a" := RETRY_AT_FIVE] && s1.starts.registering[0] == Registering("a", RETRY_AT_FIVE, true);
    assert ToStart(s1.starts, false, 5) == {"a"} == ToSet(["a"]);
    StartsTwice(s1);
    hide Step, CanHappen;
    var s2 := Step(s1, e2);
    RunStep(s2, e3, []);
    RunStep(s1, e2, [e3]);
    RunStep(INITIAL, e1, [e2, e3]);
    assert [e1] + [e2, e3] == [e1, e2, e3] && [e2] + [e3] == [e2, e3] && [e3] + [] == [e3];
  }

  lemma StartsTwice(s: State)
    requires s.starts.registered == map["a" := RETRY_AT_FIVE] && s.starts.registrations == multiset{"a"}
    requires 0 in s.starts.registering && s.starts.registering[0] == Registering("a", RETRY_AT_FIVE, true)
    requires Enumerates(["a"], ToStart(s.starts, false, 5)) && s.starts.starting == multiset{}
    ensures CanHappen(s, Online(5, ["a"])) && CanHappen(Step(s, Online(5, ["a"])), RegisterResumes(0, 5))
    ensures var t := Step(Step(s, Online(5, ["a"])), RegisterResumes(0, 5)).starts;
            t.starting["a"] == 2 && t.registrations["a"] == 1
  {
    OnlineStartsMatured(s.starts, ["a"], 5);
    StartEachStarts(s.starts.(online := true, pendingStarts := {}), ["a"]);
    assert multiset(["a"])["a"] == 1;
  }

  /** Unregistering meanwhile leaves a timer for a conversation that is not registered. */
  lemma LateRegisterLeavesTimer()
    ensures var es := [RegisterCall("a", RETRY_AT_FIVE, true), UnregisterCall("a"), RegisterResumes(0, 0)];
            && Run(INITIAL, es)
            && "a" in After(INITIAL, es).starts.startTimers && "a" !in After(INITIAL, es).starts.registered
  {
    var e1, e2, e3 := RegisterCall("a", RETRY_AT_FIVE, true), UnregisterCall("a"), RegisterResumes(0, 0);
    var s1 := Step(INITIAL, e1);
    var s2 := Step(s1, e2);
    assert s2.starts.registering[0] == Registering("a", RETRY_AT_FIVE, true) && "a" !in s2.starts.registered;
    var s3 := Step(s2, e3);
    assert "a" in s3.starts.startTimers && "a" !in s3.starts.registered;
    hide Step, CanHappen;
    RunStep(s2, e3, []);
    RunStep(s1, e2, [e3]);
    RunStep(INITIAL, e1, [e2, e3]);
    assert [e1] + [e2, e3] == [e1, e2, e3] && [e2] + [e3] == [e2, e3] && [e3] + [] == [e3];
  }

  const NO_RETRY_TIME := Challenge(0, None, Some("t"), false)

  lemma {:induction false} RunOneMore(s: State, es: seq<Event>, e: Event)
    requires Run(s, es) && CanHappen(After(s, es), e)
    ensures Run(s, es + [e]) && After(s, es + [e]) == Step(After(s, es), e)
    decreases |es|
  {
    hide Step, CanHappen;
    if es == [] {
      assert es + [e] == [e] + [];
      RunStep(s, e, []);
    } else {
      RunOneMore(Step(s, es[0]), es[1..], e);
      assert es + [e] == [es[0]] + (es[1..] + [e]);
      RunStep(s, es[0], es[1..] + [e]);
    }
  }

  /** The first registration shows its captcha. */
  lemma CaptchaIsShown()
    ensures var es := [RegisterCall("a", NO_RETRY_TIME, true), RegisterResumes(0, 0)];
            && Run(INITIAL, es)
            && var s := After(INITIAL, es);
            && s.solves == StartSolve(NO_SOLVES, "t") && s.starts.registered == map["a" := NO_RETRY_TIME]
            && !s.starts.online && s.starts.pendingStarts == {} && s.starts.starting["a"] == 0
  {
    var e1, e2 := RegisterCall("a", NO_RETRY_TIME, true), RegisterResumes(0, 0);
    var s1 := Step(INITIAL, e1);
    assert s1.starts.registering[0] == Registering("a", NO_RETRY_TIME, true) && s1.starts.starting == multiset{};
    var s2 := Step(s1, e2);
    assert s2.starts == s1.starts.(registering := s1.starts.registering - {0});
    hide Step, CanHappen;
    RunStep(s1, e2, []);
    RunStep(INITIAL, e1, [e2]);
    assert [e1] + [e2] == [e1, e2] && [e2] + [] == [e2];
  }

  lemma CaptchaIsSent(s: State)
    requires s.solves == StartSolve(NO_SOLVES, "t")
    ensures var es := [Response(0, "c"), SolveResumes(0)];
            Run(s, es) && After(s, es).starts == s.starts && After(s, es).solves.calls == map[0 := Sending("t", "c")]
  {
    var e1, e2 := Response(0, "c"), SolveResumes(0);
    var s1 := Step(s, e1);
    assert s1.solves.calls == map[0 := GotCaptcha("c")] && s1.solves.token == Some(Assigned("t", 0));
    var s2 := Step(s1, e2);
    assert s2.solves.calls == map[0 := Sending("t", "c")];
    hide Step, CanHappen;
    RunStep(s1, e2, []);
    RunStep(s, e1, [e2]);
    assert [e1] + [e2] == [e1, e2] && [e2] + [] == [e2];
  }

  /** A captcha that is solved while offline puts the start off; going online then
      forgets it, although the challenge is solved and the conversation waits. */
  lemma SolvedOfflineIsForgotten()
    ensures var es := [RegisterCall("a", NO_RETRY_TIME, true), RegisterResumes(0, 0), Response(0, "c"), SolveResumes(0)]
                      + [SendSucceeds(0, ["a"])];
            && Run(INITIAL, es)
            && After(INITIAL, es).starts.pendingStarts == {"a"}
            && CanHappen(After(INITIAL, es), Online(9, []))
            && var t := Step(After(INITIAL, es), Online(9, [])).starts;
            t.pendingStarts == {} && t.starting["a"] == 0 && t.registered == map["a" := NO_RETRY_TIME]
  {
    var first := [RegisterCall("a", NO_RETRY_TIME, true), RegisterResumes(0, 0)];
    CaptchaIsShown();
    var s1 := After(INITIAL, first);
    CaptchaIsSent(s1);
    hide Run, After;
    RunJoin(INITIAL, first, [Response(0, "c"), SolveResumes(0)]);
    var four := [RegisterCall("a", NO_RETRY_TIME, true), RegisterResumes(0, 0), Response(0, "c"), SolveResumes(0)];
    assert first + [Response(0, "c"), SolveResumes(0)] == four;
    ForgottenOnceSent(After(INITIAL, four));
    hide Step, CanHappen;
    RunOneMore(INITIAL, four, SendSucceeds(0, ["a"]));
  }

  lemma ForgottenOnceSent(s: State)
    requires s.solves.calls == map[0 := Sending("t", "c")] && s.starts.registered == map["a" := NO_RETRY_TIME]
    requires !s.starts.online && s.starts.pendingStarts == {} && s.starts.starting["a"] == 0
    ensures CanHappen(s, SendSucceeds(0, ["a"]))
    ensures var t := Step(s, SendSucceeds(0, ["a"]));
            && t.starts.pendingStarts == {"a"} && CanHappen(t, Online(9, []))
            && var u := Step(t, Online(9, [])).starts;
            u.pendingStarts == {} && u.starting["a"] == 0 && u.registered == map["a" := NO_RETRY_TIME]
  {
    assert ToSet(["a"]) == {"a"} == s.starts.registered.Keys;
    var t := Step(s, SendSucceeds(0, ["a"]));
    StartEachStarts(s.starts, ["a"]);
    assert t.starts == s.starts.(pendingStarts := {"a"});
    assert ToStart(t.starts, false, 9) == {} == ToSet<string>([]);
    OnlineStartsMatured(t.starts, [], 9);
    assert t.starts.registered - {} == t.starts.registered;
  }

  lemma {:induction false} RunJoin(s: State, a: seq<Event>, b: seq<Event>)
    requires Run(s, a) && Run(After(s, a), b)
    ensures Run(s, a + b) && After(s, a + b) == After(After(s, a), b)
    decreases |a|
  {
    hide Step, CanHappen;
    if a == [] {
      assert a + b == b;
    } else {
      RunJoin(Step(s, a[0]), a[1..], b);
      assert a + b == [a[0]] + (a[1..] + b);
      RunStep(s, a[0], a[1..] + b);
    }
  }
}
