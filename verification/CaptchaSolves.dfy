/** The captcha half of the challenge handler: solves in flight, the token they
    share, and the handlers that wait for captchas.

    A solve is cut at its two `await`s: it waits for a captcha, is handed one, and
    sends the token.  Solves are numbered as they start; the number also names
    the assignment of the token that the solve made. */
module CaptchaSolves {
  import opened Common

  datatype Phase = AwaitingCaptcha(seqNo: nat) | GotCaptcha(captcha: string) | Sending(token: string, captcha: string)

  datatype Assigned = Assigned(token: string, setter: nat)

  /** A response handler belongs to a solve, or to another caller of
      `requestCaptcha`. */
  datatype Owner = SolveCall(call: nat) | Outside

  datatype Solves = Solves(
    solving: int,
    token: Option<Assigned>,
    nextSeq: nat,
    handlers: map<nat, Owner>,
    calls: map<nat, Phase>,
    started: nat,
    sent: seq<nat>,         // the assignments that were sent to the server
    resolved: seq<nat>)     // the handlers that were resolved

  const NO_SOLVES := Solves(0, None, 0, map[], map[], 0, [], [])

  function RequestCaptcha(s: Solves, owner: Owner): Solves {
    s.(nextSeq := s.nextSeq + 1, handlers := s.handlers[s.nextSeq := owner])
  }

  function StartSolve(s: Solves, token: string): Solves {
    var k := s.started;
    RequestCaptcha(s, SolveCall(k)).(
      solving := s.solving + 1,
      token := Some(Assigned(token, k)),
      calls := s.calls[k := AwaitingCaptcha(s.nextSeq)],
      started := k + 1)
  }

  function OnResponse(s: Solves, seqNo: nat, captcha: string): Solves {
    if seqNo !in s.handlers then s
    else
      var owner := s.handlers[seqNo];
      s.(handlers := s.handlers - {seqNo},
         resolved := s.resolved + [seqNo],
         calls := if owner.SolveCall? then s.calls[owner.call := GotCaptcha(captcha)] else s.calls)
  }

  /** The solve `k` goes on with its captcha: it ends if the token is gone, or
      takes the token and sends it. */
  function ResumeSolve(s: Solves, k: nat): Solves
    requires k in s.calls && s.calls[k].GotCaptcha?
  {
    if s.token.None? then FinishSolve(s, k)
    else s.(token := None,
            sent := s.sent + [s.token.value.setter],
            calls := s.calls[k := Sending(s.token.value.token, s.calls[k].captcha)])
  }

  function FinishSolve(s: Solves, k: nat): Solves {
    s.(solving := s.solving - 1, calls := s.calls - {k})
  }

  // -------------------------------------------------------------- invariant

  predicate AwaitsCaptcha(p: Phase) {
    p.AwaitingCaptcha? || p.GotCaptcha?
  }

  ghost predicate TokenInv(s: Solves) {
    && NoDuplicates(s.sent)
    && (forall a :: a in s.sent ==> a < s.started)
    && (forall k :: k in s.calls ==> k < s.started)
    && (s.token.Some? ==>
          && s.token.value.setter == s.started - 1
          && s.token.value.setter in s.calls && AwaitsCaptcha(s.calls[s.token.value.setter])
          && s.token.value.setter !in s.sent)
    && (s.token.None? && s.started > 0 ==> s.started - 1 in s.sent)
  }

  ghost predicate HandlersInv(s: Solves) {
    && NoDuplicates(s.resolved)
    && (forall q :: q in s.resolved ==> q < s.nextSeq && q !in s.handlers)
    && (forall q :: q in s.handlers ==> q < s.nextSeq)
    && (forall q :: q in s.handlers && s.handlers[q].SolveCall? ==>
          s.handlers[q].call in s.calls && s.calls[s.handlers[q].call] == AwaitingCaptcha(q))
    && (forall k :: k in s.calls && s.calls[k].AwaitingCaptcha? ==>
          s.calls[k].seqNo in s.handlers && s.handlers[s.calls[k].seqNo] == SolveCall(k))
  }

  /** The counter counts the solves in flight; the token, if set, is that of the
      last solve to start, which still waits for its captcha, and if not set was
      sent; no assignment is sent twice; no handler is resolved twice. */
  ghost predicate SolvesInv(s: Solves) {
    s.solving == |s.calls| && TokenInv(s) && HandlersInv(s)
  }

  lemma StartSolveKeepsInv(s: Solves, token: string)
    requires SolvesInv(s)
    ensures SolvesInv(StartSolve(s, token))
  {
    assert StartSolve(s, token).calls.Keys == s.calls.Keys + {s.started};
    StartSolveKeepsToken(s, token);
    StartSolveKeepsHandlers(s, token);
    hide TokenInv, HandlersInv;
  }

  lemma StartSolveKeepsToken(s: Solves, token: string)
    requires TokenInv(s)
    ensures TokenInv(StartSolve(s, token))
  {
  }

  lemma StartSolveKeepsHandlers(s: Solves, token: string)
    requires HandlersInv(s) && s.started !in s.calls
    ensures HandlersInv(StartSolve(s, token))
  {
  }

  lemma RequestKeepsInv(s: Solves)
    requires SolvesInv(s)
    ensures SolvesInv(RequestCaptcha(s, Outside))
  {
  }

  lemma ResponseKeepsInv(s: Solves, seqNo: nat, captcha: string)
    requires SolvesInv(s)
    ensures SolvesInv(OnResponse(s, seqNo, captcha))
    ensures OnResponse(s, seqNo, captcha).token == s.token
  {
    var t := OnResponse(s, seqNo, captcha);
    if seqNo in s.handlers {
      NoDuplicatesAppend(s.resolved, seqNo);
      assert t.calls.Keys == s.calls.Keys;
    }
  }

  lemma ResumeKeepsInv(s: Solves, k: nat)
    requires SolvesInv(s) && k in s.calls && s.calls[k].GotCaptcha?
    ensures SolvesInv(ResumeSolve(s, k))
  {
    var t := ResumeSolve(s, k);
    if s.token.None? {
      FinishKeepsInv(s, k);
    } else {
      NoDuplicatesAppend(s.sent, s.token.value.setter);
      assert t.calls.Keys == s.calls.Keys;
    }
  }

  lemma FinishKeepsInv(s: Solves, k: nat)
    requires SolvesInv(s) && k in s.calls && !s.calls[k].AwaitingCaptcha?
    requires s.token.Some? ==> s.token.value.setter != k
    ensures SolvesInv(FinishSolve(s, k))
  {
    var t := FinishSolve(s, k);
    assert t.calls.Keys == s.calls.Keys - {k};
  }

  // ------------------------------------------------- what each step does

  /** A solve that starts replaces the token of those before it, and asks for a captcha
      under a number of its own. */
  lemma StartSolveExactly(s: Solves, token: string)
    requires SolvesInv(s)
    ensures var t, k := StartSolve(s, token), s.started;
            && t.token == Some(Assigned(token, k)) && t.solving == s.solving + 1
            && k !in s.calls && t.calls == s.calls[k := AwaitingCaptcha(s.nextSeq)]
            && s.nextSeq !in s.handlers && t.handlers == s.handlers[s.nextSeq := SolveCall(k)]
            && t.nextSeq == s.nextSeq + 1 && t.started == s.started + 1
            && t.sent == s.sent && t.resolved == s.resolved
  {
  }

  /** A captcha reaches the one that asked for it, once; any other number is ignored. */
  lemma ResponseExactly(s: Solves, seqNo: nat, captcha: string)
    requires SolvesInv(s)
    ensures var t := OnResponse(s, seqNo, captcha);
            if seqNo !in s.handlers then t == s
            else
              && t.handlers == s.handlers - {seqNo} && t.resolved == s.resolved + [seqNo]
              && t.token == s.token && t.solving == s.solving && t.sent == s.sent
              && t.nextSeq == s.nextSeq && t.started == s.started
              && (forall k :: k in t.calls <==> k in s.calls)
              && (forall k :: k in s.calls ==>
                    t.calls[k] == if s.calls[k] == AwaitingCaptcha(seqNo) then GotCaptcha(captcha) else s.calls[k])
  {
  }

  /** The first solve that gets its captcha sends the token of the last one to start,
      with its own captcha; the others end without sending. */
  lemma ResumeExactly(s: Solves, k: nat)
    requires SolvesInv(s) && k in s.calls && s.calls[k].GotCaptcha?
    ensures var t := ResumeSolve(s, k);
            && t.token == None && t.handlers == s.handlers
            && t.nextSeq == s.nextSeq && t.started == s.started && t.resolved == s.resolved
            && if s.token.None? then t.calls == s.calls - {k} && t.solving == s.solving - 1 && t.sent == s.sent
               else t.calls == s.calls[k := Sending(s.token.value.token, s.calls[k].captcha)]
                    && t.solving == s.solving && t.sent == s.sent + [s.started - 1]
  {
  }
}
