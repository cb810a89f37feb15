/** The challenge handler.  A method that ensures `Takes(e)` is the step `e` of the
    module Challenge; the others are parts of such steps. */
module ChallengeHandlers {
  import opened Common
  import opened ChallengeStarts
  import opened CaptchaSolves
  import C = Challenge

  class ChallengeHandler {
    var solving: int
    var isLoaded: bool
    var challengeToken: Option<string>
    var seqNo: nat
    var isOnline: bool
    var challengeRateLimitRetryAt: Option<nat>
    var responseHandlers: map<nat, Owner>
    var registeredConversations: map<string, Challenge>
    var startTimers: map<string, nat>
    var pendingStarts: set<string>

    // What the runtime and the storage hold.
    var timers: map<nat, Timer>
    var nextTimer: nat
    var stored: Option<set<string>>
    var solveCalls: nat

    // Calls that await something, and what happened so far.
    ghost var registering: map<nat, Registering>
    ghost var registerCalls: nat
    ghost var registrations: multiset<string>
    ghost var dropped: multiset<string>
    ghost var starting: multiset<string>
    ghost var started: multiset<string>
    ghost var solves: map<nat, Phase>
    ghost var tokenSetter: nat
    ghost var sent: seq<nat>
    ghost var resolved: seq<nat>

    ghost function Starts(): Starts
      reads this
    {
      ChallengeStarts.Starts(isOnline, challengeRateLimitRetryAt, registeredConversations, pendingStarts, startTimers,
                             timers, nextTimer, stored, registering, registerCalls,
                             registrations, dropped, starting, started)
    }

    ghost function Solves(): Solves
      reads this
    {
      CaptchaSolves.Solves(solving,
                           if challengeToken.Some? then Some(Assigned(challengeToken.value, tokenSetter)) else None,
                           seqNo, responseHandlers, solves, solveCalls, sent, resolved)
    }

    ghost function State(): C.State
      reads this
    {
      C.State(isLoaded, Starts(), Solves())
    }

    /** What holds in every run; see also `Safe`. */
    ghost predicate Valid()
      reads this
    {
      TimersInv(Starts()) && SolvesInv(Solves())
    }

    twostate predicate Takes(e: C.Event)
      reads this
    {
      C.CanHappen(old(State()), e) && State() == C.Step(old(State()), e)
    }

    /** The registrations of each conversation stay right, unless the step is a
        `register` of that conversation that resumes too late. */
    twostate predicate Safe(e: C.Event)
      requires C.CanHappen(old(State()), e)
      reads this
    {
      forall d :: old(ConversationInv(Starts(), d)) && C.InTime(old(State()), e, d) ==> ConversationInv(Starts(), d)
    }

    twostate lemma Took(e: C.Event)
      requires old(Valid()) && Takes(e)
      ensures Valid() && Safe(e)
    {
      hide TimersInv, SolvesInv, ConversationInv;
      C.StepIsSafe(old(State()), e);
    }

    constructor ()
      ensures State() == C.INITIAL && Valid()
    {
      solving, isLoaded, challengeToken, seqNo, isOnline := 0, false, None, 0, false;
      challengeRateLimitRetryAt, responseHandlers, registeredConversations := None, map[], map[];
      startTimers, pendingStarts, timers, nextTimer, stored := map[], {}, map[], 0, None;
      registering, registerCalls := map[], 0;
      registrations, dropped, starting, started := multiset{}, multiset{}, multiset{}, multiset{};
      solves, solveCalls, tokenSetter, sent, resolved := map[], 0, 0, [], [];
    }

    // --------------------------------------------------------- registrations

    method Persist()
      modifies this`stored
      ensures Starts() == ChallengeStarts.Persist(old(Starts()))
    {
      stored := Some(registeredConversations.Keys);
    }

    method ScheduleRetry(conversationId: string, retryAt: nat, now: nat)
      modifies this`timers, this`startTimers, this`nextTimer
      ensures Starts() == ChallengeStarts.ScheduleRetry(old(Starts()), conversationId, retryAt, now)
    {
      var waitTime := if retryAt < now then 0 else retryAt - now;
      if conversationId in startTimers {
        timers := timers - {startTimers[conversationId]};
      }
      timers := timers[nextTimer := Timer(conversationId, now + waitTime)];
      startTimers := startTimers[conversationId := nextTimer];
      nextTimer := nextTimer + 1;
    }

    /** `unregister`, up to its `await`, as `#startQueue` uses it. */
    method Unregister(conversationId: string)
      modifies this`registeredConversations, this`pendingStarts, this`startTimers, this`timers, this`stored
      ensures Starts() == ChallengeStarts.Unregister(old(Starts()), conversationId)
    {
      registeredConversations := registeredConversations - {conversationId};
      pendingStarts := pendingStarts - {conversationId};
      if conversationId in startTimers {
        timers := timers - {startTimers[conversationId]};
      }
      startTimers := startTimers - {conversationId};
      hide ChallengeStarts.Persist;
      Persist();
    }

    method UnregisterCall(conversationId: string)
      requires Valid()
      modifies this`registeredConversations, this`pendingStarts, this`startTimers, this`timers, this`stored, this`dropped
      ensures Takes(C.UnregisterCall(conversationId)) && Valid() && Safe(C.UnregisterCall(conversationId))
    {
      hide Drop, TimersInv, SolvesInv, ConversationInv;
      DropRegistration(conversationId);
      Took(C.UnregisterCall(conversationId));
    }

    method DropRegistration(conversationId: string)
      modifies this`registeredConversations, this`pendingStarts, this`startTimers, this`timers, this`stored, this`dropped
      ensures Starts() == Drop(old(Starts()), conversationId)
    {
      ghost var was := conversationId in registeredConversations;
      Unregister(conversationId);
      if was {
        dropped := dropped + multiset{conversationId};
      }
    }

    method StartQueue(conversationId: string)
      modifies this`registeredConversations, this`pendingStarts, this`startTimers, this`timers, this`stored, this`starting
      ensures Starts() == ChallengeStarts.StartQueue(old(Starts()), conversationId)
    {
      if !isOnline {
        pendingStarts := pendingStarts + {conversationId};
        return;
      }
      Unregister(conversationId);
      starting := starting + multiset{conversationId};
    }

    /** `#startQueue` goes on after its `await`. */
    method QueueStarts(conversationId: string)
      requires Valid()
      requires conversationId in starting
      modifies this`starting, this`started
      ensures Takes(C.QueueStarts(conversationId)) && Valid() && Safe(C.QueueStarts(conversationId))
    {
      starting := starting - multiset{conversationId};
      started := started + multiset{conversationId};
      Took(C.QueueStarts(conversationId));
    }

    /** The registered conversations that are due, or all of them, in some order. */
    method RegisteredToStart(force: bool, now: nat) returns (order: seq<string>)
      ensures Enumerates(order, ToStart(Starts(), force, now))
    {
      order := [];
      var rest := registeredConversations.Keys;
      while rest != {}
        invariant rest <= registeredConversations.Keys
        invariant NoDuplicates(order)
        invariant ToSet(order) == ToStart(Starts(), force, now) - rest
      {
        var c :| c in rest;
        if force || ShouldStart(registeredConversations[c], now) {
          assert c !in ToSet(order);
          NoDuplicatesAppend(order, c);
          assert ToSet(order + [c]) == ToSet(order) + {c};
          order := order + [c];
        }
        rest := rest - {c};
      }
    }

    method StartAll(conversationIds: seq<string>)
      modifies this`registeredConversations, this`pendingStarts, this`startTimers, this`timers, this`stored, this`starting
      ensures Starts() == StartEach(old(Starts()), conversationIds)
    {
      var i := 0;
      while i < |conversationIds|
        invariant i <= |conversationIds|
        invariant StartEach(Starts(), conversationIds[i..]) == StartEach(old(Starts()), conversationIds)
      {
        assert conversationIds[i..][0] == conversationIds[i] && conversationIds[i..][1..] == conversationIds[i + 1..];
        StartQueue(conversationIds[i]);
        i := i + 1;
      }
    }

    method OnOnline(now: nat) returns (ghost order: seq<string>)
      requires Valid()
      modifies this`isOnline, this`registeredConversations, this`pendingStarts, this`startTimers, this`timers,
               this`stored, this`starting
      ensures Takes(C.Online(now, order)) && Valid() && Safe(C.Online(now, order))
    {
      hide ChallengeStarts.GoOnline, Enumerates, ToStart, TimersInv, SolvesInv, ConversationInv;
      order := GoOnline(now);
      Took(C.Online(now, order));
    }

    method GoOnline(now: nat) returns (ghost order: seq<string>)
      modifies this`isOnline, this`registeredConversations, this`pendingStarts, this`startTimers, this`timers,
               this`stored, this`starting
      ensures Enumerates(order, ToStart(old(Starts()), false, now))
      ensures Starts() == ChallengeStarts.GoOnline(old(Starts()), order)
    {
      isOnline := true;
      pendingStarts := {};
      order := StartAllQueues(false, now);
    }

    method StartAllQueues(force: bool, now: nat) returns (ghost order: seq<string>)
      modifies this`registeredConversations, this`pendingStarts, this`startTimers, this`timers, this`stored, this`starting
      ensures Enumerates(order, ToStart(old(Starts()), force, now))
      ensures Starts() == StartEach(old(Starts()), order)
    {
      var due := RegisteredToStart(force, now);
      hide StartEach, Enumerates;
      StartAll(due);
      order := due;
    }

    method OnOffline()
      requires Valid()
      modifies this`isOnline
      ensures Takes(C.Offline) && Valid() && Safe(C.Offline)
    {
      isOnline := false;
      Took(C.Offline);
    }

    method TimerFires(timer: nat, now: nat)
      requires Valid()
      requires timer in timers && timers[timer].due <= now
      modifies this`registeredConversations, this`pendingStarts, this`startTimers, this`timers, this`stored,
               this`starting, this`challengeRateLimitRetryAt
      ensures Takes(C.TimerFires(timer, now)) && Valid() && Safe(C.TimerFires(timer, now))
    {
      hide ChallengeStarts.FireTimer, TimersInv, SolvesInv, ConversationInv;
      FireTimer(timer);
      Took(C.TimerFires(timer, now));
    }

    method FireTimer(timer: nat)
      requires timer in timers
      modifies this`registeredConversations, this`pendingStarts, this`startTimers, this`timers, this`stored,
               this`starting, this`challengeRateLimitRetryAt
      ensures Starts() == ChallengeStarts.FireTimer(old(Starts()), timer)
    {
      var conversationId := timers[timer].conversationId;
      timers := timers - {timer};
      startTimers := startTimers - {conversationId};
      challengeRateLimitRetryAt := None;
      StartQueue(conversationId);
    }

    method ForceWaitOnAll(retryAt: nat, now: nat) returns (ghost order: seq<string>)
      modifies this`registeredConversations, this`startTimers, this`timers, this`nextTimer, this`challengeRateLimitRetryAt
      ensures Enumerates(order, old(registeredConversations).Keys)
      ensures Starts() == ChallengeStarts.ForceWaitOnAll(old(Starts()), retryAt, now, order)
    {
      challengeRateLimitRetryAt := Some(retryAt);
      var all := RegisteredToStart(true, now);
      order := all;
      assert forall c :: c in all ==> c in ToSet(all);
      WaitOnAll(all, retryAt, now);
    }

    method WaitOnAll(all: seq<string>, retryAt: nat, now: nat)
      requires forall c :: c in all ==> c in registeredConversations
      modifies this`registeredConversations, this`startTimers, this`timers, this`nextTimer
      ensures Starts() == WaitOnEach(old(Starts()), retryAt, now, all)
    {
      hide ChallengeStarts.WaitOn;
      var i := 0;
      while i < |all|
        invariant i <= |all|
        invariant forall c :: c in all ==> c in registeredConversations
        invariant WaitOnEach(Starts(), retryAt, now, all[i..]) == WaitOnEach(old(Starts()), retryAt, now, all)
      {
        assert all[i..][0] == all[i] && all[i..][1..] == all[i + 1..];
        WaitOn(all[i], retryAt, now);
        i := i + 1;
      }
    }

    method WaitOn(conversationId: string, retryAt: nat, now: nat)
      requires conversationId in registeredConversations
      modifies this`registeredConversations, this`startTimers, this`timers, this`nextTimer
      ensures Starts() == ChallengeStarts.WaitOn(old(Starts()), conversationId, retryAt, now)
      ensures registeredConversations.Keys == old(registeredConversations).Keys
    {
      var existing := registeredConversations[conversationId];
      registeredConversations := registeredConversations[conversationId := existing.(retryAt := Some(retryAt))];
      assert registeredConversations.Keys == old(registeredConversations).Keys;
      hide ChallengeStarts.ScheduleRetry;
      ScheduleRetry(conversationId, retryAt, now);
    }

    /** A call of `register`, up to its `await`. */
    method RegisterCall(conversationId: string, challenge: Challenge, wantsCaptcha: bool)
      requires Valid()
      modifies this`registeredConversations, this`stored, this`registering, this`registerCalls, this`registrations
      ensures Takes(C.RegisterCall(conversationId, challenge, wantsCaptcha)) && Valid()
      ensures Safe(C.RegisterCall(conversationId, challenge, wantsCaptcha))
    {
      hide ChallengeStarts.Register;
      Register(conversationId, challenge, wantsCaptcha);
      Took(C.RegisterCall(conversationId, challenge, wantsCaptcha));
    }

    method Register(conversationId: string, challenge: Challenge, wantsCaptcha: bool)
      modifies this`registeredConversations, this`stored, this`registering, this`registerCalls, this`registrations
      ensures Starts() == ChallengeStarts.Register(old(Starts()), conversationId, challenge, wantsCaptcha)
    {
      if conversationId in registeredConversations {
        return;
      }
      AddRegistration(conversationId, challenge, wantsCaptcha);
      hide ChallengeStarts.Persist;
      Persist();
    }

    method AddRegistration(conversationId: string, challenge: Challenge, wantsCaptcha: bool)
      modifies this`registeredConversations, this`registering, this`registerCalls, this`registrations
      ensures Starts() == ChallengeStarts.AddRegistration(old(Starts()), conversationId, challenge, wantsCaptcha)
    {
      registeredConversations := registeredConversations[conversationId := challenge];
      registering := registering[registerCalls := Registering(conversationId, challenge, wantsCaptcha)];
      registerCalls := registerCalls + 1;
      registrations := registrations + multiset{conversationId};
    }

    /** `register`, after its `await`. */
    method RegisterResumes(ghost call: nat, conversationId: string, challenge: Challenge, wantsCaptcha: bool, now: nat)
      requires Valid()
      requires call in registering && registering[call] == Registering(conversationId, challenge, wantsCaptcha)
      modifies this`registeredConversations, this`pendingStarts, this`startTimers, this`timers, this`nextTimer,
               this`stored, this`starting, this`registering,
               this`solving, this`challengeToken, this`seqNo, this`responseHandlers,
               this`solves, this`solveCalls, this`tokenSetter
      ensures Takes(C.RegisterResumes(call, now)) && Valid() && Safe(C.RegisterResumes(call, now))
    {
      hide ChallengeStarts.ResumeRegister, CaptchaSolves.StartSolve, CaptchaFor, TimersInv, SolvesInv, ConversationInv;
      ResumeRegister(call, conversationId, challenge, wantsCaptcha, now);
      Took(C.RegisterResumes(call, now));
    }

    method ResumeRegister(ghost call: nat, conversationId: string, challenge: Challenge, wantsCaptcha: bool, now: nat)
      requires call in registering && registering[call] == Registering(conversationId, challenge, wantsCaptcha)
      modifies this`registeredConversations, this`pendingStarts, this`startTimers, this`timers, this`nextTimer,
               this`stored, this`starting, this`registering,
               this`solving, this`challengeToken, this`seqNo, this`responseHandlers,
               this`solves, this`solveCalls, this`tokenSetter
      ensures Starts() == ChallengeStarts.ResumeRegister(old(Starts()), call, now)
      ensures var token := CaptchaFor(Registering(conversationId, challenge, wantsCaptcha), now);
              Solves() == if token.Some? then CaptchaSolves.StartSolve(old(Solves()), token.value) else old(Solves())
    {
      hide ChallengeStarts.ResumeRegister, CaptchaSolves.StartSolve;
      ScheduleOrStart(call, conversationId, challenge, wantsCaptcha, now);
      if !ShouldStart(challenge, now) && wantsCaptcha
         && challenge.token.Some? && challenge.token.value != "" && !challenge.silent {
        StartSolve(challenge.token.value);
      }
    }

    method ScheduleOrStart(ghost call: nat, conversationId: string, challenge: Challenge, wantsCaptcha: bool, now: nat)
      requires call in registering && registering[call] == Registering(conversationId, challenge, wantsCaptcha)
      modifies this`registeredConversations, this`pendingStarts, this`startTimers, this`timers, this`nextTimer,
               this`stored, this`starting, this`registering
      ensures Starts() == ChallengeStarts.ResumeRegister(old(Starts()), call, now)
    {
      registering := registering - {call};
      if ShouldStart(challenge, now) {
        StartQueue(conversationId);
      } else if NonZero(challengeRateLimitRetryAt) {
        ScheduleRetry(conversationId, challengeRateLimitRetryAt.value, now);
      } else if NonZero(challenge.retryAt) {
        ScheduleRetry(conversationId, challenge.retryAt.value, now);
      }
    }

    method Load(challenges: seq<C.Stored>, now: nat, expireAfter: nat)
      requires Valid()
      modifies this`isLoaded, this`registeredConversations, this`stored, this`registering, this`registerCalls,
               this`registrations
      ensures Takes(C.Load(challenges, now, expireAfter)) && Valid() && Safe(C.Load(challenges, now, expireAfter))
    {
      hide C.RegisterAll, TimersInv, SolvesInv, ConversationInv;
      LoadAll(challenges, now, expireAfter);
      Took(C.Load(challenges, now, expireAfter));
    }

    method LoadAll(challenges: seq<C.Stored>, now: nat, expireAfter: nat)
      modifies this`isLoaded, this`registeredConversations, this`stored, this`registering, this`registerCalls,
               this`registrations
      ensures isLoaded
      ensures Starts() == if old(isLoaded) then old(Starts()) else C.RegisterAll(old(Starts()), challenges, now, expireAfter)
    {
      if isLoaded {
        return;
      }
      hide ChallengeStarts.Register;
      isLoaded := true;
      var i := 0;
      while i < |challenges|
        invariant i <= |challenges| && isLoaded
        invariant C.RegisterAll(Starts(), challenges[i..], now, expireAfter) ==
                  C.RegisterAll(old(Starts()), challenges, now, expireAfter)
      {
        var (c, ch) := challenges[i];
        assert challenges[i..][0] == challenges[i] && challenges[i..][1..] == challenges[i + 1..];
        if !C.IsOlderThan(ch.createdAt, expireAfter, now) {
          Register(c, ch, true);
        }
        i := i + 1;
      }
    }

    // -------------------------------------------------------------- captchas

    /** `requestCaptcha`, called from outside, up to its `await`. */
    method CaptchaRequest() returns (request: nat)
      requires Valid()
      modifies this`seqNo, this`responseHandlers
      ensures request == old(seqNo) && Takes(C.CaptchaRequest) && Valid() && Safe(C.CaptchaRequest)
    {
      request := RequestCaptcha(Outside);
      Took(C.CaptchaRequest);
    }

    method RequestCaptcha(owner: Owner) returns (request: nat)
      modifies this`seqNo, this`responseHandlers
      ensures request == old(seqNo) && Solves() == CaptchaSolves.RequestCaptcha(old(Solves()), owner)
    {
      request := seqNo;
      seqNo := seqNo + 1;
      responseHandlers := responseHandlers[request := owner];
    }

    /** `#solve`, up to its first `await`. */
    method StartSolve(token: string)
      modifies this`solving, this`challengeToken, this`seqNo, this`responseHandlers,
               this`solves, this`solveCalls, this`tokenSetter
      ensures Solves() == CaptchaSolves.StartSolve(old(Solves()), token)
    {
      solving := solving + 1;
      challengeToken := Some(token);
      tokenSetter := solveCalls;
      var request := RequestCaptcha(SolveCall(solveCalls));
      solves := solves[solveCalls := AwaitingCaptcha(request)];
      solveCalls := solveCalls + 1;
    }

    method MaybeSolve(conversationId: string)
      requires Valid()
      modifies this`solving, this`challengeToken, this`seqNo, this`responseHandlers,
               this`solves, this`solveCalls, this`tokenSetter
      ensures Takes(C.MaybeSolveCall(conversationId)) && Valid() && Safe(C.MaybeSolveCall(conversationId))
    {
      hide CaptchaSolves.StartSolve, C.MaybeSolve, C.InTime, TimersInv, SolvesInv, ConversationInv, Matured;
      C.SolvingChangesSolves(State(), conversationId);
      SolveIfIdle(conversationId);
      Took(C.MaybeSolveCall(conversationId));
    }

    method SolveIfIdle(conversationId: string)
      modifies this`solving, this`challengeToken, this`seqNo, this`responseHandlers,
               this`solves, this`solveCalls, this`tokenSetter
      ensures Solves() == C.MaybeSolve(old(State()), conversationId).solves
    {
      hide CaptchaSolves.StartSolve;
      if conversationId !in registeredConversations || solving > 0 || NonZero(challengeRateLimitRetryAt) {
        return;
      }
      var token := registeredConversations[conversationId].token;
      if token.Some? && token.value != "" {
        StartSolve(token.value);
      }
    }

    method OnResponse(response: nat, captcha: string)
      requires Valid()
      modifies this`responseHandlers, this`solves, this`resolved
      ensures Takes(C.Response(response, captcha)) && Valid() && Safe(C.Response(response, captcha))
    {
      hide CaptchaSolves.OnResponse, TimersInv, SolvesInv, ConversationInv;
      ResolveHandler(response, captcha);
      Took(C.Response(response, captcha));
    }

    method ResolveHandler(response: nat, captcha: string)
      modifies this`responseHandlers, this`solves, this`resolved
      ensures Solves() == CaptchaSolves.OnResponse(old(Solves()), response, captcha)
    {
      if response !in responseHandlers {
        return;
      }
      ghost var owner := responseHandlers[response];
      responseHandlers := responseHandlers - {response};
      resolved := resolved + [response];
      if owner.SolveCall? {
        solves := solves[owner.call := GotCaptcha(captcha)];
      }
    }

    /** `#solve`, after its first `await`; the token it then sends, if any. */
    method SolveResumes(ghost k: nat, captcha: string) returns (sending: Option<string>)
      requires Valid()
      requires k in solves && solves[k] == GotCaptcha(captcha)
      modifies this`solving, this`challengeToken, this`solves, this`sent
      ensures Takes(C.SolveResumes(k)) && Valid() && Safe(C.SolveResumes(k))
      ensures sending == old(challengeToken)
    {
      hide CaptchaSolves.ResumeSolve, TimersInv, SolvesInv, ConversationInv;
      sending := ResumeSolve(k, captcha);
      Took(C.SolveResumes(k));
    }

    method ResumeSolve(ghost k: nat, captcha: string) returns (sending: Option<string>)
      requires k in solves && solves[k] == GotCaptcha(captcha)
      modifies this`solving, this`challengeToken, this`solves, this`sent
      ensures Solves() == CaptchaSolves.ResumeSolve(old(Solves()), k)
      ensures sending == old(challengeToken)
    {
      sending := challengeToken;
      if challengeToken.None? {
        solving := solving - 1;
        solves := solves - {k};
        return;
      }
      challengeToken := None;
      sent := sent + [tokenSetter];
      solves := solves[k := Sending(sending.value, captcha)];
    }

    method Finish(ghost k: nat)
      modifies this`solving, this`solves
      ensures Solves() == FinishSolve(old(Solves()), k)
    {
      solving := solving - 1;
      solves := solves - {k};
    }

    /** `#solve`, when the server accepts the captcha. */
    method SendSucceeds(ghost k: nat) returns (ghost order: seq<string>)
      requires Valid()
      requires k in solves && solves[k].Sending?
      modifies this`solving, this`solves, this`registeredConversations, this`pendingStarts, this`startTimers,
               this`timers, this`stored, this`starting
      ensures Takes(C.SendSucceeds(k, order)) && Valid() && Safe(C.SendSucceeds(k, order))
    {
      hide StartEach, FinishSolve, Enumerates, TimersInv, SolvesInv, ConversationInv;
      order := StartAllSolved(k);
      Took(C.SendSucceeds(k, order));
    }

    method StartAllSolved(ghost k: nat) returns (ghost order: seq<string>)
      requires k in solves && solves[k].Sending?
      modifies this`solving, this`solves, this`registeredConversations, this`pendingStarts, this`startTimers,
               this`timers, this`stored, this`starting
      ensures Enumerates(order, old(registeredConversations).Keys)
      ensures Starts() == StartEach(old(Starts()), order) && Solves() == FinishSolve(old(Solves()), k)
    {
      Finish(k);
      assert ToStart(Starts(), true, 0) == registeredConversations.Keys;
      order := StartAllQueues(true, 0);
    }

    /** `#solve`, when the server refuses: all wait until `retryAt`. */
    method SendFails(ghost k: nat, retryAt: nat, now: nat) returns (ghost order: seq<string>)
      requires Valid()
      requires k in solves && solves[k].Sending?
      modifies this`solving, this`solves, this`registeredConversations, this`startTimers, this`timers, this`nextTimer,
               this`challengeRateLimitRetryAt
      ensures Takes(C.SendFails(k, retryAt, now, order)) && Valid() && Safe(C.SendFails(k, retryAt, now, order))
    {
      hide ChallengeStarts.ForceWaitOnAll, FinishSolve, Enumerates, TimersInv, SolvesInv, ConversationInv;
      order := WaitAllFailed(k, retryAt, now);
      Took(C.SendFails(k, retryAt, now, order));
    }

    method WaitAllFailed(ghost k: nat, retryAt: nat, now: nat) returns (ghost order: seq<string>)
      requires k in solves && solves[k].Sending?
      modifies this`solving, this`solves, this`registeredConversations, this`startTimers, this`timers, this`nextTimer,
               this`challengeRateLimitRetryAt
      ensures Enumerates(order, old(registeredConversations).Keys)
      ensures Starts() == ChallengeStarts.ForceWaitOnAll(old(Starts()), retryAt, now, order)
      ensures Solves() == FinishSolve(old(Solves()), k)
    {
      hide ChallengeStarts.ForceWaitOnAll;
      order := ForceWaitOnAll(retryAt, now);
      Finish(k);
    }
  }
}
