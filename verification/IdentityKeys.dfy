/** The identity key of one contact, and what changes its verification status.
    Operations on one contact run one at a time, on a queue of their own. */
module IdentityKeys {
  import opened Common

  const DEFAULT := 0
  const VERIFIED := 1
  const UNVERIFIED := 2
  const TIMESTAMP_THRESHOLD := 5000

  datatype IdentityKey = IdentityKey(
    publicKey: Option<Bytes>,
    firstUse: bool,
    timestamp: int,
    verified: int,
    nonblockingApproval: bool)

  /** What the store has of a contact.  `keyChanges` counts the 'keychange' events
      emitted; `previousKey` is kept on the conversation. */
  datatype Contact = Contact(
    ours: bool,
    cached: Option<IdentityKey>,
    db: Option<IdentityKey>,
    previousKey: Option<Bytes>,
    keyChanges: nat)

  /** `writes` says whether the database write of the operation succeeds. */
  datatype Operation =
    | SaveIdentity(publicKey: Bytes, nonblockingApproval: bool, noOverwrite: bool, now: nat, writes: bool)
    | SetApproval(nonblockingApproval: bool, writes: bool)
    | SetVerified(verifiedStatus: int, firstUse: Option<bool>, approval: Option<bool>, writes: bool)
    | Sync(verifiedStatus: int, publicKey: Bytes, now: nat, writes: bool)

  datatype Outcome = Returned(answer: bool) | Threw

  predicate ValidStatus(status: int) {
    status == DEFAULT || status == VERIFIED || status == UNVERIFIED
  }

  predicate ValidKey(r: IdentityKey) {
    r.publicKey.Some? && r.timestamp > 0 && ValidStatus(r.verified)
  }

  predicate ApprovalRequired(r: IdentityKey, now: int) {
    !r.firstUse && r.timestamp > now - TIMESTAMP_THRESHOLD && !r.nonblockingApproval
  }

  predicate HasKey(s: Contact) {
    s.cached.Some? && s.cached.value.publicKey.Some?
  }

  function Saved(s: Contact, r: IdentityKey, writes: bool): Contact {
    if writes then s.(cached := Some(r), db := Some(r)) else s
  }

  /** The cached record is changed in place before it is written. */
  function Approved(s: Contact, approval: bool, writes: bool): Contact
    requires s.cached.Some?
  {
    var r := s.cached.value.(nonblockingApproval := approval);
    Saved(s.(cached := Some(r)), r, writes)
  }

  function CheckPreviousKey(s: Contact, publicKey: Bytes): Contact {
    if s.previousKey.None? then s
    else s.(previousKey := None,
            keyChanges := if s.previousKey.value != publicKey then s.keyChanges + 1 else s.keyChanges)
  }

  function StatusAfterChange(previous: int): int {
    if previous == VERIFIED || previous == UNVERIFIED then UNVERIFIED else DEFAULT
  }

  function SaveStep(s: Contact, publicKey: Bytes, approval: bool, noOverwrite: bool, now: nat, writes: bool): (Contact, Outcome) {
    if !HasKey(s) then
      if !writes then (s, Threw)
      else (CheckPreviousKey(Saved(s, IdentityKey(Some(publicKey), true, now, DEFAULT, approval), true), publicKey),
            Returned(false))
    else if noOverwrite then (s, Returned(false))
    else
      var r := s.cached.value;
      if r.publicKey.value != publicKey then
        if s.ours then (s, Returned(false))
        else if !writes then (s, Threw)
        else
          var next := IdentityKey(Some(publicKey), false, now, StatusAfterChange(r.verified), approval);
          (Saved(s, next, true).(keyChanges := s.keyChanges + 1), Returned(true))
      else if ApprovalRequired(r, now) then
        (Approved(s, approval, writes), if writes then Returned(false) else Threw)
      else (s, Returned(false))
  }

  function ApprovalStep(s: Contact, approval: bool, writes: bool): (Contact, Outcome) {
    if s.cached.None? then (s, Threw)
    else (Approved(s, approval, writes), if writes then Returned(false) else Threw)
  }

  function VerifiedStep(s: Contact, status: int, firstUse: Option<bool>, approval: Option<bool>, writes: bool): (Contact, Outcome) {
    if !ValidStatus(status) || s.cached.None? || !ValidKey(s.cached.value) || !writes then (s, Threw)
    else
      var r := s.cached.value;
      (Saved(s, r.(firstUse := if firstUse.Some? then firstUse.value else r.firstUse,
                   nonblockingApproval := if approval.Some? then approval.value else r.nonblockingApproval,
                   verified := status), true),
       Returned(false))
  }

  function SyncStep(s: Contact, status: int, publicKey: Bytes, now: nat, writes: bool): (Contact, Outcome) {
    if !ValidStatus(status) then (s, Threw)
    else
      var hadEntry := s.cached.Some?;
      var keyMatches := hadEntry && s.cached.value.publicKey == Some(publicKey);
      var statusMatches := keyMatches && s.cached.value.verified == status;
      var next := IdentityKey(Some(publicKey), !hadEntry, now, status, true);
      if !statusMatches && (!ValidKey(next) || !writes) then (s, Threw)
      else
        var t := if statusMatches then s else Saved(s, next, true);
        var u := if !hadEntry then CheckPreviousKey(t, publicKey)
                 else if !keyMatches then t.(keyChanges := t.keyChanges + 1)
                 else t;
        var wasVerified := hadEntry && s.cached.value.verified == VERIFIED;
        (u, Returned((status == VERIFIED && !wasVerified) || (status != VERIFIED && wasVerified)))
  }

  function StepAndOutcome(s: Contact, e: Operation): (Contact, Outcome) {
    match e
    case SaveIdentity(publicKey, approval, noOverwrite, now, writes) =>
      SaveStep(s, publicKey, approval, noOverwrite, now, writes)
    case SetApproval(approval, writes) => ApprovalStep(s, approval, writes)
    case SetVerified(status, firstUse, approval, writes) => VerifiedStep(s, status, firstUse, approval, writes)
    case Sync(status, publicKey, now, writes) => SyncStep(s, status, publicKey, now, writes)
  }

  function Step(s: Contact, e: Operation): Contact {
    StepAndOutcome(s, e).0
  }

  function OutcomeOf(s: Contact, e: Operation): Outcome {
    StepAndOutcome(s, e).1
  }

  predicate IsTrustedForSending(s: Contact, publicKey: Bytes, now: int) {
    if s.cached.None? then
      s.previousKey.None? || s.previousKey.value == publicKey
    else if s.cached.value.publicKey.None? then true
    else
      && s.cached.value.publicKey.value == publicKey
      && s.cached.value.verified != UNVERIFIED
      && !ApprovalRequired(s.cached.value, now)
  }

  // ------------------------------------------------------------------- runs

  function After(s: Contact, es: seq<Operation>): Contact {
    if es == [] then s else Step(After(s, es[..|es| - 1]), es[|es| - 1])
  }

  predicate IsVerified(s: Contact) {
    s.cached.Some? && s.cached.value.verified == VERIFIED
  }

  /** The operation marks the key of the contact as verified. */
  predicate Verifies(s: Contact, e: Operation) {
    (e.SetVerified? || e.Sync?) && e.verifiedStatus == VERIFIED && OutcomeOf(s, e) != Threw
  }

  /** The operation is a decision of the user, made here or on a linked device. */
  predicate Decides(e: Operation) {
    e.SetVerified? || e.Sync?
  }

  lemma StepVerifies(s: Contact, e: Operation)
    requires IsVerified(Step(s, e))
    ensures Verifies(s, e) || (IsVerified(s) && Step(s, e).cached.value.publicKey == s.cached.value.publicKey)
  {
  }

  /** A VERIFIED record holds the key that was verified: there is an operation that
      verified it, and since then the status and the key are as they were. */
  lemma {:induction false} VerifiedKeyWasVerified(s: Contact, es: seq<Operation>)
    requires !IsVerified(s) && IsVerified(After(s, es))
    ensures exists k :: 0 <= k < |es| && Verifies(After(s, es[..k]), es[k]) && KeptSince(s, es, k)
  {
    if es != [] {
      var n := |es| - 1;
      var init, last := es[..n], es[n];
      var t := After(s, init);
      assert After(s, es) == Step(t, last);
      StepVerifies(t, last);
      hide Step, After, Verifies;
      if Verifies(t, last) {
        assert es[..n + 1] == es;
        assert KeptSince(s, es, n);
      } else {
        VerifiedKeyWasVerified(s, init);
        var k :| 0 <= k < n && Verifies(After(s, init[..k]), init[k]) && KeptSince(s, init, k);
        assert init[..k] == es[..k];
        KeptLonger(s, es, k);
      }
    }
  }

  lemma KeptLonger(s: Contact, es: seq<Operation>, k: nat)
    requires k < |es| - 1 && KeptSince(s, es[..|es| - 1], k) && IsVerified(After(s, es[..|es| - 1]))
    requires IsVerified(After(s, es))
    requires After(s, es).cached.value.publicKey == After(s, es[..|es| - 1]).cached.value.publicKey
    ensures KeptSince(s, es, k)
  {
    hide After;
    var n := |es| - 1;
    forall j | k < j <= |es|
      ensures IsVerified(After(s, es[..j]))
      ensures After(s, es[..j]).cached.value.publicKey == After(s, es).cached.value.publicKey
    {
      if j <= n {
        assert es[..n][..j] == es[..j];
      } else {
        assert es[..j] == es;
      }
    }
  }

  ghost predicate KeptSince(s: Contact, es: seq<Operation>, k: nat) {
    forall j :: k < j <= |es| ==>
                  && IsVerified(After(s, es[..j])) && IsVerified(After(s, es))
                  && After(s, es[..j]).cached.value.publicKey == After(s, es).cached.value.publicKey
  }

  /** The record needs approval by the user; no key may be used for sending. */
  predicate Unverified(s: Contact) {
    HasKey(s) && s.cached.value.verified == UNVERIFIED
  }

  /** When the key of a contact that was verified is replaced, the contact becomes
      unverified: exactly then, as far as saving keys goes. */
  lemma ReplacingKeyUnverifies(s: Contact, e: Operation)
    requires e.SaveIdentity? && HasKey(s)
    ensures OutcomeOf(s, e) == Returned(true) <==>
              !e.noOverwrite && s.cached.value.publicKey != Some(e.publicKey) && !s.ours && e.writes
    ensures OutcomeOf(s, e) == Returned(true) ==>
              && HasKey(Step(s, e)) && Step(s, e).cached.value.publicKey == Some(e.publicKey)
              && Step(s, e).keyChanges == s.keyChanges + 1
              && (Unverified(Step(s, e)) <==> IsVerified(s) || Unverified(s))
    ensures OutcomeOf(s, e) != Returned(true) ==>
              Step(s, e).cached.value.publicKey == s.cached.value.publicKey
              && Step(s, e).cached.value.verified == s.cached.value.verified && Step(s, e).keyChanges == s.keyChanges
  {
  }

  /** A contact is met, verified, and comes with another key: it is then unverified. */
  lemma VerifiedThenReplaced(first: Bytes, other: Bytes, now: nat)
    requires first != other && now > 0
    ensures var es := [SaveIdentity(first, false, false, now, true), SetVerified(VERIFIED, None, None, true),
                       SaveIdentity(other, true, false, now, true)];
            var s := Contact(false, None, None, None, 0);
            IsVerified(After(s, es[..2])) && Unverified(After(s, es)) && After(s, es).cached.value.publicKey == Some(other)
  {
    var es := [SaveIdentity(first, false, false, now, true), SetVerified(VERIFIED, None, None, true),
               SaveIdentity(other, true, false, now, true)];
    assert es[..1][..0] == [] && es[..2][..1] == es[..1] && es[..3] == es;
    var s := Contact(false, None, None, None, 0);
    assert After(s, []) == s;
    assert After(s, es[..1]) == Step(s, es[0]);
    assert After(s, es[..2]) == Step(After(s, es[..1]), es[1]);
    assert After(s, es) == Step(After(s, es[..2]), es[2]);
  }

  /** And it stays unverified, with no key trusted at any time, until the user
      decides, whatever keys are saved or approved meanwhile. */
  lemma {:induction false} UnverifiedUntilDecision(s: Contact, es: seq<Operation>, publicKey: Bytes, now: int)
    requires Unverified(s) && (forall k :: 0 <= k < |es| ==> !Decides(es[k]))
    ensures Unverified(After(s, es)) && !IsTrustedForSending(After(s, es), publicKey, now)
  {
    if es != [] {
      UnverifiedUntilDecision(s, es[..|es| - 1], publicKey, now);
    }
  }

  /** A key saved in place of another is trusted, and no other key is, exactly when
      the contact was not verified and either the new key was approved or it is
      five seconds old; further saves of the same key change this by approving. */
  lemma ReplacedKeyIsTrustedExactlyWhen(s: Contact, e: Operation, publicKey: Bytes, now: int)
    requires e.SaveIdentity? && HasKey(s) && OutcomeOf(s, e) == Returned(true)
    ensures IsTrustedForSending(Step(s, e), publicKey, now) <==>
              && publicKey == e.publicKey
              && s.cached.value.verified != VERIFIED && s.cached.value.verified != UNVERIFIED
              && (e.nonblockingApproval || now >= e.now + TIMESTAMP_THRESHOLD)
  {
  }

  /** Our own key is never replaced, except by a sync. */
  lemma {:induction false} OwnKeyStays(s: Contact, es: seq<Operation>)
    requires s.ours && HasKey(s) && (forall k :: 0 <= k < |es| ==> !es[k].Sync?)
    ensures HasKey(After(s, es)) && After(s, es).ours
    ensures After(s, es).cached.value.publicKey == s.cached.value.publicKey
  {
    if es != [] {
      OwnKeyStays(s, es[..|es| - 1]);
    }
  }

  /** The cached record is the one in the database, but for an approval that was
      changed in place and could not be written. */
  predicate CacheInv(s: Contact) {
    && (s.cached.Some? <==> s.db.Some?)
    && (s.cached.Some? ==> s.cached.value == s.db.value.(nonblockingApproval := s.cached.value.nonblockingApproval))
  }

  lemma StepKeepsCache(s: Contact, e: Operation)
    requires CacheInv(s)
    ensures CacheInv(Step(s, e))
    ensures s.cached == s.db && e.writes ==> Step(s, e).cached == Step(s, e).db
  {
  }

  lemma {:induction false} EveryRunKeepsCache(s: Contact, es: seq<Operation>)
    requires CacheInv(s)
    ensures CacheInv(After(s, es))
    ensures s.cached == s.db && (forall k :: 0 <= k < |es| ==> es[k].writes) ==> After(s, es).cached == After(s, es).db
  {
    if es != [] {
      EveryRunKeepsCache(s, es[..|es| - 1]);
      StepKeepsCache(After(s, es[..|es| - 1]), es[|es| - 1]);
      hide Step, CacheInv;
    }
  }

  /** The cache and the database differ after an operation, where they agreed
      before, exactly when the write of a new approval fails. */
  lemma CacheLeftAheadExactlyWhen(s: Contact, e: Operation)
    requires s.cached == s.db
    ensures Step(s, e).cached != Step(s, e).db <==>
              && !e.writes && s.cached.Some?
              && (e.SetApproval? || (e.SaveIdentity? && !e.noOverwrite && s.cached.value.publicKey == Some(e.publicKey)
                                     && ApprovalRequired(s.cached.value, e.now)))
              && e.nonblockingApproval != s.cached.value.nonblockingApproval
  {
  }

  /** A sync asks for a notification exactly when it turns VERIFIED on or off, and
      unless it throws leaves the contact with just the key and status it brought. */
  lemma SyncSettles(s: Contact, e: Operation)
    requires e.Sync? && OutcomeOf(s, e) != Threw
    ensures OutcomeOf(s, e) == Returned(IsVerified(Step(s, e)) != IsVerified(s))
    ensures HasKey(Step(s, e)) && Step(s, e).cached.value.publicKey == Some(e.publicKey)
    ensures Step(s, e).cached.value.verified == e.verifiedStatus
  {
  }

  // ------------------------------------------- what each operation does

  /** What all operations keep to: a write that succeeds puts the same record into cache
      and database, and the contact stays who it is. */
  predicate Written(s: Contact, t: Contact, r: IdentityKey) {
    t.cached == Some(r) && t.db == Some(r) && t.ours == s.ours
  }

  /** The first key of a contact is saved as it comes, in use from the start and with
      the default status, and checked against the key it had before. */
  lemma FirstSaveExactly(s: Contact, e: Operation)
    requires e.SaveIdentity? && (s.cached == None || s.cached.value.publicKey == None)
    ensures var t := Step(s, e);
            if !e.writes then t == s && OutcomeOf(s, e) == Threw
            else
              && OutcomeOf(s, e) == Returned(false)
              && Written(s, t, IdentityKey(Some(e.publicKey), true, e.now, 0, e.nonblockingApproval))
              && t.previousKey == None
              && t.keyChanges == s.keyChanges + if s.previousKey.Some? && s.previousKey.value != e.publicKey then 1 else 0
  {
  }

  /** A later one replaces another key, unless it may not or the contact is ourselves;
      the same key only renews an approval that is required; nothing else happens. */
  lemma LaterSaveExactly(s: Contact, e: Operation)
    requires e.SaveIdentity? && s.cached.Some? && s.cached.value.publicKey.Some?
    ensures var t, r := Step(s, e), s.cached.value;
            && t.previousKey == s.previousKey && t.ours == s.ours
            && if !e.noOverwrite && r.publicKey != Some(e.publicKey) && !s.ours then
                 if !e.writes then t == s && OutcomeOf(s, e) == Threw
                 else
                   && OutcomeOf(s, e) == Returned(true) && t.keyChanges == s.keyChanges + 1
                   && Written(s, t, IdentityKey(Some(e.publicKey), false, e.now,
                                                if r.verified == 1 || r.verified == 2 then 2 else 0, e.nonblockingApproval))
               else if !e.noOverwrite && r.publicKey == Some(e.publicKey)
                       && !r.firstUse && !r.nonblockingApproval && e.now < r.timestamp + 5000 then
                 && t.keyChanges == s.keyChanges && t.cached == Some(r.(nonblockingApproval := e.nonblockingApproval))
                 && t.db == (if e.writes then t.cached else s.db)
                 && OutcomeOf(s, e) == (if e.writes then Returned(false) else Threw)
               else t == s && OutcomeOf(s, e) == Returned(false)
  {
  }

  /** Approval changes the flag alone, in the cache even when the write fails. */
  lemma ApprovalExactly(s: Contact, e: Operation)
    requires e.SetApproval?
    ensures var t := Step(s, e);
            if s.cached == None then t == s && OutcomeOf(s, e) == Threw
            else
              && t == s.(cached := Some(s.cached.value.(nonblockingApproval := e.nonblockingApproval)),
                         db := if e.writes then t.cached else s.db)
              && OutcomeOf(s, e) == if e.writes then Returned(false) else Threw
  {
  }

  /** Verification needs a valid status and record; it sets the status, and the extras
      that are given. */
  lemma VerificationExactly(s: Contact, e: Operation)
    requires e.SetVerified?
    ensures var t := Step(s, e);
            var can := 0 <= e.verifiedStatus <= 2 && e.writes && s.cached.Some?
                       && s.cached.value.publicKey.Some? && s.cached.value.timestamp > 0 && 0 <= s.cached.value.verified <= 2;
            if !can then t == s && OutcomeOf(s, e) == Threw
            else
              && OutcomeOf(s, e) == Returned(false)
              && t.previousKey == s.previousKey && t.keyChanges == s.keyChanges && t.ours == s.ours
              && t.cached.Some? && t.db == t.cached
              && t.cached.value.publicKey == s.cached.value.publicKey && t.cached.value.timestamp == s.cached.value.timestamp
              && t.cached.value.verified == e.verifiedStatus
              && Some(t.cached.value.firstUse) == (if e.firstUse.Some? then e.firstUse else Some(s.cached.value.firstUse))
              && Some(t.cached.value.nonblockingApproval) ==
                 (if e.approval.Some? then e.approval else Some(s.cached.value.nonblockingApproval))
  {
  }

  /** A sync that brings what is there writes nothing; any other replaces the record.  It
      throws on an invalid status, at time zero, or when it cannot write. */
  lemma SyncExactly(s: Contact, e: Operation)
    requires e.Sync?
    ensures var t := Step(s, e);
            var known := s.cached.Some? && s.cached.value.publicKey == Some(e.publicKey);
            var same := known && s.cached.value.verified == e.verifiedStatus;
            && t.ours == s.ours
            && (OutcomeOf(s, e) == Threw <==> !(0 <= e.verifiedStatus <= 2) || (!same && (e.now == 0 || !e.writes)))
            && if OutcomeOf(s, e) == Threw then t == s
               else
                 && (same ==> t.cached == s.cached && t.db == s.db)
                 && (!same ==> Written(s, t, IdentityKey(Some(e.publicKey), s.cached == None, e.now, e.verifiedStatus, true)))
                 && t.previousKey == (if s.cached == None then None else s.previousKey)
                 && t.keyChanges == s.keyChanges +
                    if (if s.cached == None then s.previousKey.Some? && s.previousKey.value != e.publicKey else !known)
                    then 1 else 0
  {
  }

  /** Which keys are trusted for sending.  Without a record any is, but for one that
      differs from the key the contact had; with one it is that key alone, unless it
      waits for a decision or for an approval. */
  lemma TrustedExactlyWhen(s: Contact, publicKey: Bytes, now: int)
    ensures s.cached == None ==>
              (IsTrustedForSending(s, publicKey, now) <==> s.previousKey == None || s.previousKey == Some(publicKey))
    ensures s.cached.Some? && s.cached.value.publicKey == None ==> IsTrustedForSending(s, publicKey, now)
    ensures s.cached.Some? && s.cached.value.publicKey.Some? ==>
              (IsTrustedForSending(s, publicKey, now) <==>
                 && s.cached.value.publicKey == Some(publicKey) && s.cached.value.verified != 2
                 && (s.cached.value.firstUse || s.cached.value.nonblockingApproval || s.cached.value.timestamp + 5000 <= now))
  {
  }
}
