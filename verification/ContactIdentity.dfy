/** How incoming identifiers are resolved to one contact.

    A contact is known by an ACI, a PNI and a phone number.  The `serviceId`
    slot holds the ACI, or the PNI when the ACI is not known.  The functions
    here give the new identities of all conversations after one call of
    `maybeMergeContacts`; `C` is the type of conversation references.  The class
    in ConversationController.dfy implements them. */
module ContactIdentity {
  import opened Common

  datatype ServiceId = Aci(id: string) | Pni(id: string)

  datatype Identity = Identity(serviceId: Option<ServiceId>, e164: Option<string>, pni: Option<string>)

  const NOBODY := Identity(None, None, None)

  function AsServiceId(pni: Option<string>): Option<ServiceId> {
    if pni.Some? then Some(Pni(pni.value)) else None
  }

  predicate HasAci(x: Identity) {
    x.serviceId.Some? && x.serviceId.value.Aci?
  }

  // ------------------------------------------------------------- changes

  /** A change object: `None` for a key that is absent, `Some(None)` for a key
      that is present and undefined. */
  datatype Change = Change(
    serviceId: Option<Option<ServiceId>>,
    e164: Option<Option<string>>,
    pni: Option<Option<string>>)

  predicate Truthy<T>(o: Option<Option<T>>) {
    o.Some? && o.value.Some?
  }

  function ClearPniWithE164(ch: Change): Change {
    if ch.e164.Some? && !Truthy(ch.pni) then ch.(pni := Some(None)) else ch
  }

  function PniIntoServiceId(x: Identity, ch: Change): Change {
    if Truthy(ch.pni) && !Truthy(ch.serviceId)
       && (x.serviceId.None? || x.serviceId == AsServiceId(x.pni))
    then ch.(serviceId := Some(AsServiceId(ch.pni.value)))
    else ch
  }

  function ClearServiceIdWithPni(x: Identity, ch: Change): Change {
    if !Truthy(ch.serviceId) && ch.pni.Some? && !Truthy(ch.pni) && x.serviceId == AsServiceId(x.pni)
    then ch.(serviceId := Some(None))
    else ch
  }

  function FullChange(x: Identity, ch: Change): Change {
    ClearServiceIdWithPni(x, PniIntoServiceId(x, ClearPniWithE164(ch)))
  }

  function Changed(x: Identity, ch: Change): Identity {
    Identity(if ch.serviceId.Some? then ch.serviceId.value else x.serviceId,
             if ch.e164.Some? then ch.e164.value else x.e164,
             if ch.pni.Some? then ch.pni.value else x.pni)
  }

  function ApplyChange(x: Identity, suggested: Change): Identity {
    Changed(x, FullChange(x, suggested))
  }

  // ------------------------------------------------- one provided identifier

  /** A provided identifier, under the key it is looked up with. */
  datatype Value = AciValue(id: string) | E164Value(id: string) | PniValue(id: string)

  predicate Holds(x: Identity, v: Value) {
    match v
    case AciValue(a) => x.serviceId == Some(Aci(a))
    case E164Value(e) => x.e164 == Some(e)
    case PniValue(p) => x.serviceId == Some(Pni(p)) || x.pni == Some(p)
  }

  predicate SlotEmpty(x: Identity, v: Value) {
    match v
    case AciValue(_) => x.serviceId.None?
    case E164Value(_) => x.e164.None?
    case PniValue(_) => x.pni.None?
  }

  function SetTo(v: Value): Change {
    match v
    case AciValue(a) => Change(Some(Some(Aci(a))), None, None)
    case E164Value(e) => Change(None, Some(Some(e)), None)
    case PniValue(p) => Change(None, None, Some(Some(p)))
  }

  /** What is cleared on a match that is not the target: the key it matched on,
      and the `serviceId` slot when it holds just the incoming PNI. */
  function ClearOn(x: Identity, v: Value, pni: Option<string>): Change {
    match v
    case AciValue(_) => Change(Some(None), None, None)
    case E164Value(_) => Change(if x.serviceId == AsServiceId(pni) then Some(None) else None, Some(None), None)
    case PniValue(_) => Change(if x.serviceId == AsServiceId(pni) then Some(None) else None, None, Some(None))
  }

  /** A conversation made by `getOrCreate` from one identifier. */
  function Created(v: Value): Identity {
    match v
    case AciValue(a) => Identity(Some(Aci(a)), None, None)
    case E164Value(e) => Identity(None, Some(e), None)
    case PniValue(p) => Identity(Some(Pni(p)), None, None)
  }

  // ------------------------------------------------------------ the merge

  datatype Merge<C> = Merge(
    convs: map<C, Identity>,
    target: Option<C>,
    unused: seq<Value>,
    merged: seq<(C, C)>)      // (current, obsolete)

  /** Whether the match `x` becomes the target for the unmatched identifier `u`. */
  predicate TakesUnused(x: Identity, u: Value, pni: Option<string>) {
    || SlotEmpty(x, u)
    || (u.AciValue? && x.serviceId == AsServiceId(pni))
    || (u.AciValue? && x.serviceId == AsServiceId(x.pni))
  }

  function PlaceUnused<C(==)>(s: Merge<C>, c: C, u: Value, pni: Option<string>, spare: C): (t: Merge<C>)
    requires c in s.convs && (s.target.Some? ==> s.target.value in s.convs)
    ensures s.convs.Keys <= t.convs.Keys && t.target.Some? && t.target.value in t.convs
    ensures t.merged == s.merged && t.unused == s.unused
  {
    var t :=
      if s.target.Some? then s
      else if TakesUnused(s.convs[c], u, pni) then s.(target := Some(c))
      else s.(target := Some(spare), convs := s.convs[spare := Created(u)]);
    var x := t.target.value;
    t.(convs := t.convs[x := ApplyChange(t.convs[x], SetTo(u))])
  }

  function PlaceAllUnused<C(==)>(s: Merge<C>, c: C, us: seq<Value>, pni: Option<string>, spare: C): (t: Merge<C>)
    requires c in s.convs && (s.target.Some? ==> s.target.value in s.convs)
    ensures s.convs.Keys <= t.convs.Keys && (t.target.Some? ==> t.target.value in t.convs)
    ensures t.merged == s.merged && t.unused == s.unused
    decreases |us|
  {
    if us == [] then s
    else PlaceAllUnused(PlaceUnused(s, c, us[0], pni, spare), c, us[1..], pni, spare)
  }

  /** A provided identifier with a match `c`, once the unused ones are placed. */
  function TakeFromMatch<C(==)>(s: Merge<C>, v: Value, c: C, pni: Option<string>): (t: Merge<C>)
    requires c in s.convs && (s.target.Some? ==> s.target.value in s.convs)
    ensures t.convs.Keys == s.convs.Keys && t.target.Some? && t.target.value in t.convs
  {
    if s.target.Some? && s.target.value != c then
      var x := s.target.value;
      var rest := ApplyChange(s.convs[c], ClearOn(s.convs[c], v, pni));
      var m := s.convs[c := rest];
      s.(convs := m[x := ApplyChange(m[x], SetTo(v))],
         merged := if rest == NOBODY then s.merged + [(x, c)] else s.merged)
    else if s.target == Some(c) && SlotEmpty(s.convs[c], v) then
      s.(convs := s.convs[c := ApplyChange(s.convs[c], SetTo(v))])
    else
      s.(target := Some(c))
  }

  lemma TakingIgnoresUnused<C>(s: Merge<C>, v: Value, c: C, pni: Option<string>)
    requires c in s.convs && (s.target.Some? ==> s.target.value in s.convs)
    ensures TakeFromMatch(s.(unused := []), v, c, pni) == TakeFromMatch(s, v, c, pni).(unused := [])
  {
  }

  /** One turn of the loop over the matches. */
  function MergeStep<C(==)>(s: Merge<C>, v: Value, m: Option<C>, pni: Option<string>, spare: C): (t: Merge<C>)
    requires m.Some? ==> m.value in s.convs
    requires s.target.Some? ==> s.target.value in s.convs
    ensures s.convs.Keys <= t.convs.Keys && (t.target.Some? ==> t.target.value in t.convs)
  {
    if m.None? then
      if s.target.Some? then
        var x := s.target.value;
        s.(convs := s.convs[x := ApplyChange(s.convs[x], SetTo(v))])
      else s.(unused := s.unused + [v])
    else
      TakeFromMatch(PlaceAllUnused(s, m.value, s.unused, pni, spare).(unused := []), v, m.value, pni)
  }

  /** The identifiers given to `maybeMergeContacts`, normalized. */
  datatype Provided = Provided(aci: Option<string>, e164: Option<string>, pni: Option<string>)

  /** The conversations found for them before anything is changed. */
  datatype Matches<C> = Matches(aci: Option<C>, e164: Option<C>, pni: Option<C>)

  function AciTurn<C(==)>(convs: map<C, Identity>, p: Provided, ms: Matches<C>, spare: C): (t: Merge<C>)
    requires ms.aci.Some? ==> ms.aci.value in convs
    ensures convs.Keys <= t.convs.Keys && (t.target.Some? ==> t.target.value in t.convs)
  {
    var s := Merge(convs, None, [], []);
    if p.aci.None? then s else MergeStep(s, AciValue(p.aci.value), ms.aci, p.pni, spare)
  }

  function E164Turn<C(==)>(s: Merge<C>, p: Provided, ms: Matches<C>, spare: C): (t: Merge<C>)
    requires s.target.Some? ==> s.target.value in s.convs
    requires ms.e164.Some? ==> ms.e164.value in s.convs
    ensures s.convs.Keys <= t.convs.Keys && (t.target.Some? ==> t.target.value in t.convs)
  {
    if p.e164.None? then s else MergeStep(s, E164Value(p.e164.value), ms.e164, p.pni, spare)
  }

  function PniTurn<C(==)>(s: Merge<C>, p: Provided, ms: Matches<C>, spare: C): (t: Merge<C>)
    requires s.target.Some? ==> s.target.value in s.convs
    requires ms.pni.Some? ==> ms.pni.value in s.convs
    ensures s.convs.Keys <= t.convs.Keys && (t.target.Some? ==> t.target.value in t.convs)
  {
    if p.pni.None? then s else MergeStep(s, PniValue(p.pni.value), ms.pni, p.pni, spare)
  }

  /** Without any match, a conversation is created with all the inputs. */
  function CreateIfNoTarget<C(==)>(s: Merge<C>, p: Provided, spare: C): Merge<C> {
    if s.target.Some? then s
    else
      var serviceId := if p.aci.Some? then Some(Aci(p.aci.value)) else AsServiceId(p.pni);
      s.(target := Some(spare), convs := s.convs[spare := Identity(serviceId, p.e164, p.pni)])
  }

  ghost predicate IsMatch<C>(convs: map<C, Identity>, v: Value, m: Option<C>) {
    if m.Some? then m.value in convs && Holds(convs[m.value], v)
    else forall c :: c in convs ==> !Holds(convs[c], v)
  }

  ghost predicate AreMatches<C>(convs: map<C, Identity>, p: Provided, ms: Matches<C>) {
    && (if p.aci.Some? then IsMatch(convs, AciValue(p.aci.value), ms.aci) else ms.aci.None?)
    && (if p.e164.Some? then IsMatch(convs, E164Value(p.e164.value), ms.e164) else ms.e164.None?)
    && (if p.pni.Some? then IsMatch(convs, PniValue(p.pni.value), ms.pni) else ms.pni.None?)
  }

  /** The state after the first `n` turns of the loop. */
  ghost function AfterTurns<C>(convs: map<C, Identity>, p: Provided, ms: Matches<C>, spare: C, n: nat): (s: Merge<C>)
    requires AreMatches(convs, p, ms)
    ensures convs.Keys <= s.convs.Keys && (s.target.Some? ==> s.target.value in s.convs)
  {
    if n == 0 then Merge(convs, None, [], [])
    else
      var s := AfterTurns(convs, p, ms, spare, n - 1);
      if ValueAt(p, n - 1).None? then s
      else MergeStep(s, ValueAt(p, n - 1).value, MatchAt(ms, n - 1), p.pni, spare)
  }

  /** The collection, result and merges of one call of `maybeMergeContacts`. */
  ghost function MergeContacts<C>(convs: map<C, Identity>, p: Provided, ms: Matches<C>, spare: C): Merge<C>
    requires AreMatches(convs, p, ms)
  {
    CreateIfNoTarget(AfterTurns(convs, p, ms, spare, 3), p, spare)
  }

  lemma AllTurns<C>(convs: map<C, Identity>, p: Provided, ms: Matches<C>, spare: C)
    requires AreMatches(convs, p, ms)
    ensures AfterTurns(convs, p, ms, spare, 3) ==
            PniTurn(E164Turn(AciTurn(convs, p, ms, spare), p, ms, spare), p, ms, spare)
  {
    assert AfterTurns(convs, p, ms, spare, 1) == AciTurn(convs, p, ms, spare);
    assert AfterTurns(convs, p, ms, spare, 2) == E164Turn(AciTurn(convs, p, ms, spare), p, ms, spare);
  }

  // ----------------------------------------------------------- invariants

  /** The two contacts have no identifier in common, in whatever slot. */
  predicate Disjoint(x: Identity, y: Identity) {
    && (x.serviceId.Some? ==> x.serviceId != y.serviceId && x.serviceId != AsServiceId(y.pni))
    && (x.e164.Some? ==> x.e164 != y.e164)
    && (x.pni.Some? ==> x.pni != y.pni && AsServiceId(x.pni) != y.serviceId)
  }

  ghost predicate Unique<C>(convs: map<C, Identity>) {
    forall c, d :: c in convs && d in convs && c != d ==> Disjoint(convs[c], convs[d])
  }

  /** The two PNI slots do not hold different PNIs. */
  predicate Coherent(x: Identity) {
    x.serviceId.Some? && x.serviceId.value.Pni? ==> x.pni.None? || x.pni == Some(x.serviceId.value.id)
  }

  ghost predicate AllCoherent<C>(convs: map<C, Identity>) {
    forall c :: c in convs ==> Coherent(convs[c])
  }

  /** A PNI in the `serviceId` slot is also the PNI, and a PNI without an ACI is
      also in the `serviceId` slot. */
  predicate WellFormed(x: Identity) {
    && (x.serviceId.Some? && x.serviceId.value.Pni? ==> x.pni == Some(x.serviceId.value.id))
    && (x.pni.Some? ==> HasAci(x) || x.serviceId == AsServiceId(x.pni))
  }

  ghost predicate AllWellFormed<C>(convs: map<C, Identity>) {
    forall c :: c in convs ==> WellFormed(convs[c])
  }

  // -------------------------------------------------- one change, one contact

  lemma ApplyKeepsWellFormed(x: Identity, v: Value, pni: Option<string>)
    requires WellFormed(x)
    ensures WellFormed(ApplyChange(x, SetTo(v)))
    ensures !v.AciValue? ==> WellFormed(ApplyChange(x, ClearOn(x, v, pni)))
  {
  }

  /** Giving a contact an identifier nobody else holds keeps it apart from all
      the others, whatever it loses in the process. */
  lemma SetKeepsUnique<C>(convs: map<C, Identity>, c: C, v: Value)
    requires Unique(convs) && c in convs
    requires forall d :: d in convs && d != c ==> !Holds(convs[d], v)
    ensures Unique(convs[c := ApplyChange(convs[c], SetTo(v))])
  {
    var x := ApplyChange(convs[c], SetTo(v));
    forall d | d in convs && d != c
      ensures Disjoint(x, convs[d]) && Disjoint(convs[d], x)
    {
      assert Disjoint(convs[c], convs[d]) && Disjoint(convs[d], convs[c]);
      assert !Holds(convs[d], v);
    }
  }

  lemma ClearKeepsUnique<C>(convs: map<C, Identity>, c: C, v: Value, pni: Option<string>)
    requires Unique(convs) && c in convs
    ensures Unique(convs[c := ApplyChange(convs[c], ClearOn(convs[c], v, pni))])
  {
    var x := ApplyChange(convs[c], ClearOn(convs[c], v, pni));
    forall d | d in convs && d != c
      ensures Disjoint(x, convs[d]) && Disjoint(convs[d], x)
    {
      assert Disjoint(convs[c], convs[d]) && Disjoint(convs[d], convs[c]);
    }
  }

  lemma CreateKeepsUnique<C>(convs: map<C, Identity>, c: C, v: Value)
    requires Unique(convs) && c !in convs
    requires forall d :: d in convs ==> !Holds(convs[d], v)
    ensures Unique(convs[c := Created(v)])
  {
    forall d | d in convs
      ensures Disjoint(Created(v), convs[d]) && Disjoint(convs[d], Created(v))
    {
      assert !Holds(convs[d], v);
    }
  }

  /** In a unique collection, a held identifier has one holder. */
  lemma OneHolder<C>(convs: map<C, Identity>, v: Value, c: C, d: C)
    requires Unique(convs) && c in convs && d in convs
    requires Holds(convs[c], v) && Holds(convs[d], v)
    ensures c == d
  {
  }

  // ------------------------------------------- what holds between the turns

  function ValueAt(p: Provided, k: nat): Option<Value> {
    if k == 0 && p.aci.Some? then Some(AciValue(p.aci.value))
    else if k == 1 && p.e164.Some? then Some(E164Value(p.e164.value))
    else if k == 2 && p.pni.Some? then Some(PniValue(p.pni.value))
    else None
  }

  function MatchAt<C>(ms: Matches<C>, k: nat): Option<C> {
    if k == 0 then ms.aci else if k == 1 then ms.e164 else if k == 2 then ms.pni else None
  }

  /** The provided identifiers of the first `n` turns. */
  function ValuesBefore(p: Provided, n: nat): seq<Value> {
    if n == 0 then []
    else ValuesBefore(p, n - 1) + (if ValueAt(p, n - 1).Some? then [ValueAt(p, n - 1).value] else [])
  }

  ghost predicate MatchedBefore<C>(ms: Matches<C>, n: nat, c: C) {
    exists k: nat :: k < n && MatchAt(ms, k) == Some(c)
  }

  /** Identifiers that are still to be looked at are held by their match, if at
      all: `d` is apart, or is that match. */
  ghost predicate FutureHeldByMatches<C>(convs: map<C, Identity>, p: Provided, ms: Matches<C>, n: nat) {
    forall k: nat, d :: n <= k < 3 && ValueAt(p, k).Some? && d in convs && Holds(convs[d], ValueAt(p, k).value) ==>
                          MatchAt(ms, k) == Some(d)
  }

  ghost predicate AcisKept<C>(before: map<C, Identity>, convs: map<C, Identity>) {
    forall d :: d in before ==> d in convs && (HasAci(before[d]) ==> convs[d].serviceId == before[d].serviceId)
  }

  /** Until its turn comes, a slot is only ever emptied. */
  ghost predicate SlotsKept<C>(before: map<C, Identity>, convs: map<C, Identity>, k: nat) {
    forall d :: d in before && d in convs ==>
                  && (k <= 1 ==> convs[d].e164.None? || convs[d].e164 == before[d].e164)
                  && (k <= 2 ==> convs[d].pni.None? || convs[d].pni == before[d].pni)
  }

  /** The conversation `s.target` holds all that was looked at. */
  ghost predicate TargetHolds<C>(s: Merge<C>, vs: seq<Value>) {
    s.target.Some? && s.target.value in s.convs && forall v :: v in vs ==> Holds(s.convs[s.target.value], v)
  }

  /** A conversation is passed to the merge as obsolete when it was a match, is
      not the target and has nothing left; and every conversation that lost its
      last identifier is passed. */
  ghost predicate MergedRight<C>(before: map<C, Identity>, ms: Matches<C>, n: nat, s: Merge<C>) {
    && (forall i :: 0 <= i < |s.merged| ==>
          var (t, c) := s.merged[i];
          && Some(t) == s.target && c != t
          && c in before && c in s.convs && s.convs[c] == NOBODY
          && MatchedBefore(ms, n, c))
    && (forall c :: c in before && before[c] != NOBODY && c in s.convs && s.convs[c] == NOBODY ==>
          exists i :: 0 <= i < |s.merged| && s.merged[i].1 == c)
  }

  ghost predicate OthersUntouched<C>(before: map<C, Identity>, ms: Matches<C>, n: nat, s: Merge<C>) {
    forall c :: c in before && c in s.convs && Some(c) != s.target && !MatchedBefore(ms, n, c) ==>
                  s.convs[c] == before[c]
  }

  /** The invariant of the loop: `placed` are the identifiers the target holds,
      `rest` those nobody holds yet, `m` the turns whose match may have been
      touched, `k` the first turn whose identifier is still with its match. */
  ghost predicate Core<C>(before: map<C, Identity>, p: Provided, ms: Matches<C>, spare: C,
                          m: nat, placed: seq<Value>, rest: seq<Value>, k: nat, s: Merge<C>) {
    && Unique(s.convs)
    && before.Keys <= s.convs.Keys <= before.Keys + {spare}
    && (spare in s.convs ==> s.target == Some(spare) || spare in before)
    && (s.target.None? ==> s.convs == before && s.merged == [] && placed == [])
    && (s.target.Some? ==> && TargetHolds(s, placed)
                           && (s.target.value == spare || MatchedBefore(ms, m, s.target.value)))
    && (forall v, d :: v in rest && d in s.convs ==> !Holds(s.convs[d], v))
    && FutureHeldByMatches(s.convs, p, ms, k)
    && AcisKept(before, s.convs)
    && SlotsKept(before, s.convs, k)
    && MergedRight(before, ms, m, s)
    && OthersUntouched(before, ms, m, s)
  }

  /** The PNI given is lost: it is in the `serviceId` slot of its match alone, beside
      another PNI, and an ACI that has no match takes that slot. */
  predicate PniLost<C(==)>(before: map<C, Identity>, p: Provided, ms: Matches<C>)
    requires ms.pni.Some? ==> ms.pni.value in before
  {
    && p.aci.Some? && ms.aci.None? && p.pni.Some? && ms.pni.Some?
    && before[ms.pni.value].serviceId == AsServiceId(p.pni)
    && before[ms.pni.value].pni.Some? && before[ms.pni.value].pni != p.pni
    && (p.e164.None? || ms.e164 == ms.pni)
  }

  /** The provided identifiers of the first `n` turns that the target still holds. */
  ghost function KeptBefore<C>(before: map<C, Identity>, p: Provided, ms: Matches<C>, n: nat): seq<Value>
    requires AreMatches(before, p, ms)
  {
    if n == 3 && PniLost(before, p, ms) then ValuesBefore(p, 2) else ValuesBefore(p, n)
  }

  ghost predicate Stage<C>(before: map<C, Identity>, p: Provided, ms: Matches<C>, spare: C, n: nat, s: Merge<C>) {
    && AreMatches(before, p, ms)
    && var vs := ValuesBefore(p, n);
    if s.target.Some? then s.unused == [] && vs != [] && Core(before, p, ms, spare, n, KeptBefore(before, p, ms, n), [], n, s)
    else s.unused == vs && Core(before, p, ms, spare, n, [], vs, n, s)
  }

  lemma StartStage<C>(before: map<C, Identity>, p: Provided, ms: Matches<C>, spare: C)
    requires Unique(before) && AreMatches(before, p, ms)
    ensures Stage(before, p, ms, spare, 0, Merge(before, None, [], []))
  {
    forall k: nat, d | k < 3 && ValueAt(p, k).Some? && d in before && Holds(before[d], ValueAt(p, k).value)
      ensures MatchAt(ms, k) == Some(d)
    {
      if MatchAt(ms, k).Some? {
        OneHolder(before, ValueAt(p, k).value, d, MatchAt(ms, k).value);
      }
    }
  }

  lemma MoreMatched<C>(ms: Matches<C>, n: nat)
    requires n < 3
    ensures forall c :: MatchedBefore(ms, n, c) ==> MatchedBefore(ms, n + 1, c)
    ensures forall c :: MatchedBefore(ms, n + 1, c) <==> MatchedBefore(ms, n, c) || MatchAt(ms, n) == Some(c)
  {
  }

  function Rank(v: Value): nat {
    match v
    case AciValue(_) => 0
    case E164Value(_) => 1
    case PniValue(_) => 2
  }

  lemma ValuesBeforeRank(p: Provided, n: nat)
    requires n <= 3
    ensures forall v :: v in ValuesBefore(p, n) ==> Rank(v) < n && ValueAt(p, Rank(v)) == Some(v)
    ensures forall i, j :: 0 <= i < j < |ValuesBefore(p, n)| ==> Rank(ValuesBefore(p, n)[i]) < Rank(ValuesBefore(p, n)[j])
  {
    if n > 0 { ValuesBeforeRank(p, n - 1); }
  }

  /** A turn whose identifier was not provided. */
  lemma SkipTurn<C>(before: map<C, Identity>, p: Provided, ms: Matches<C>, spare: C, n: nat, s: Merge<C>)
    requires n < 3 && Stage(before, p, ms, spare, n, s)
    requires ValueAt(p, n).None?
    ensures Stage(before, p, ms, spare, n + 1, s)
  {
    MoreMatched(ms, n);
    assert ValuesBefore(p, n + 1) == ValuesBefore(p, n) && KeptBefore(before, p, ms, n + 1) == ValuesBefore(p, n);
  }

  // ------------------------------------------------- setting a value on a target

  lemma SetKeepsEarlier(x: Identity, v: Value, w: Value)
    requires Rank(w) < Rank(v) && Holds(x, w)
    ensures Holds(ApplyChange(x, SetTo(v)), w)
  {
  }

  lemma SetAddsOnly(x: Identity, v: Value, w: Value)
    requires Holds(ApplyChange(x, SetTo(v)), w)
    ensures v == w || Holds(x, w)
  {
  }

  /** Placing one identifier makes nobody a holder of another. */
  lemma PlacingAddsOnly<C>(s: Merge<C>, c: C, u: Value, pni: Option<string>, spare: C, w: Value)
    requires c in s.convs && (s.target.Some? ==> s.target.value in s.convs)
    requires w != u && forall d :: d in s.convs ==> !Holds(s.convs[d], w)
    ensures var t := PlaceUnused(s, c, u, pni, spare);
            forall d :: d in t.convs ==> !Holds(t.convs[d], w)
  {
  }

  /** Setting on the target an identifier that nobody else holds. */
  lemma SetOnTarget<C>(before: map<C, Identity>, p: Provided, ms: Matches<C>, spare: C,
                       m: nat, placed: seq<Value>, rest: seq<Value>, k: nat, s: Merge<C>, v: Value)
    requires Core(before, p, ms, spare, m, placed, rest, k, s) && s.target.Some?
    requires forall w :: w in placed ==> Rank(w) < Rank(v)
    requires v.AciValue? && HasAci(s.convs[s.target.value]) ==> Holds(s.convs[s.target.value], v)
    requires v !in rest && Rank(v) < k
    requires forall d :: d in s.convs && Some(d) != s.target ==> !Holds(s.convs[d], v)
    ensures var x := s.target.value;
            Core(before, p, ms, spare, m, placed + [v], rest, k,
                 s.(convs := s.convs[x := ApplyChange(s.convs[x], SetTo(v))]))
  {
    var x := s.target.value;
    var y := ApplyChange(s.convs[x], SetTo(v));
    var t := s.(convs := s.convs[x := y]);
    hide Unique, MergedRight, FutureHeldByMatches, AcisKept, SlotsKept, Holds, ApplyChange;
    SetKeepsUnique(s.convs, x, v);
    SetHoldsAll(s.convs[x], placed, v);
    assert Holds(y, v) by { assert v in placed + [v]; }
    assert y != NOBODY by { NobodyHoldsNothing(v); }
    SetIsMerged(before, ms, m, s, y);
    SetKeepsFuture(s.convs, p, ms, k, x, v);
    SetKeepsSlots(before, s.convs, k, x, v);
    forall w, d | w in rest && d in t.convs
      ensures !Holds(t.convs[d], w)
    {
      if d == x && Holds(y, w) { SetAddsOnly(s.convs[x], v, w); }
    }
  }

  lemma NobodyHoldsNothing(v: Value)
    ensures !Holds(NOBODY, v)
  {
  }

  lemma SetKeepsFuture<C>(convs: map<C, Identity>, p: Provided, ms: Matches<C>, k: nat, x: C, v: Value)
    requires FutureHeldByMatches(convs, p, ms, k) && x in convs && Rank(v) < k
    ensures FutureHeldByMatches(convs[x := ApplyChange(convs[x], SetTo(v))], p, ms, k)
  {
    hide Holds, ApplyChange;
    forall w | Holds(ApplyChange(convs[x], SetTo(v)), w)
      ensures v == w || Holds(convs[x], w)
    {
      SetAddsOnly(convs[x], v, w);
    }
  }

  lemma SetKeepsSlots<C>(before: map<C, Identity>, convs: map<C, Identity>, k: nat, x: C, v: Value)
    requires x in convs && AcisKept(before, convs) && SlotsKept(before, convs, k) && Rank(v) < k
    requires v.AciValue? && HasAci(convs[x]) ==> Holds(convs[x], v)
    ensures var m := convs[x := ApplyChange(convs[x], SetTo(v))]; AcisKept(before, m) && SlotsKept(before, m, k)
  {
  }

  lemma SetHoldsAll(x: Identity, placed: seq<Value>, v: Value)
    requires forall w :: w in placed ==> Holds(x, w) && Rank(w) < Rank(v)
    requires v.AciValue? && HasAci(x) ==> Holds(x, v)
    ensures forall w :: w in placed + [v] ==> Holds(ApplyChange(x, SetTo(v)), w)
  {
    forall w | w in placed + [v]
      ensures Holds(ApplyChange(x, SetTo(v)), w)
    {
      if w in placed { SetKeepsEarlier(x, v, w); }
    }
  }

  lemma SetIsMerged<C>(before: map<C, Identity>, ms: Matches<C>, m: nat, s: Merge<C>, y: Identity)
    requires MergedRight(before, ms, m, s) && s.target.Some? && y != NOBODY
    ensures MergedRight(before, ms, m, s.(convs := s.convs[s.target.value := y]))
  {
  }

  // ---------------------------------------------------------- the turns

  lemma CoreWithMoreMatches<C>(before: map<C, Identity>, p: Provided, ms: Matches<C>, spare: C,
                               n: nat, placed: seq<Value>, rest: seq<Value>, k: nat, s: Merge<C>)
    requires n < 3 && Core(before, p, ms, spare, n, placed, rest, k, s)
    ensures Core(before, p, ms, spare, n + 1, placed, rest, k, s)
  {
    MoreMatched(ms, n);
  }

  lemma CoreWithLaterFuture<C>(before: map<C, Identity>, p: Provided, ms: Matches<C>, spare: C,
                               m: nat, placed: seq<Value>, rest: seq<Value>, k: nat, s: Merge<C>)
    requires Core(before, p, ms, spare, m, placed, rest, k, s)
    ensures Core(before, p, ms, spare, m, placed, rest, k + 1, s)
  {
  }

  lemma UnmatchedTurn<C>(before: map<C, Identity>, p: Provided, ms: Matches<C>, spare: C, n: nat, s: Merge<C>)
    requires n < 3 && Stage(before, p, ms, spare, n, s)
    requires ValueAt(p, n).Some? && MatchAt(ms, n).None?
    ensures Stage(before, p, ms, spare, n + 1, MergeStep(s, ValueAt(p, n).value, None, p.pni, spare))
  {
    var v := ValueAt(p, n).value;
    var vs := ValuesBefore(p, n);
    assert ValuesBefore(p, n + 1) == vs + [v];
    ValuesBeforeRank(p, n);
    FutureAt(s.convs, p, ms, n);
    hide Unique, MergedRight, FutureHeldByMatches, AcisKept, SlotsKept, OthersUntouched, ApplyChange, Holds;
    if s.target.Some? {
      CoreWithMoreMatches(before, p, ms, spare, n, vs, [], n, s);
      CoreWithLaterFuture(before, p, ms, spare, n + 1, vs, [], n, s);
      SetOnTarget(before, p, ms, spare, n + 1, vs, [], n + 1, s, v);
    } else {
      CoreWithMoreMatches(before, p, ms, spare, n, [], vs, n, s);
      CoreWithLaterFuture(before, p, ms, spare, n + 1, [], vs, n, s);
      OneMoreUnused(before, p, ms, spare, n + 1, vs, n + 1, s, v);
    }
  }

  lemma OneMoreUnused<C>(before: map<C, Identity>, p: Provided, ms: Matches<C>, spare: C,
                         m: nat, rest: seq<Value>, k: nat, s: Merge<C>, v: Value)
    requires Core(before, p, ms, spare, m, [], rest, k, s) && s.target.None?
    requires forall d :: d in s.convs ==> !Holds(s.convs[d], v)
    ensures Core(before, p, ms, spare, m, [], rest + [v], k, s.(unused := s.unused + [v]))
  {
    hide Unique, FutureHeldByMatches, AcisKept, SlotsKept, Holds;
    assert MergedRight(before, ms, m, s.(unused := s.unused + [v]));
  }

  /** An unmatched identifier goes to the target, to the match at hand, or to a
      conversation made for it. */
  lemma PlaceOne<C>(before: map<C, Identity>, p: Provided, ms: Matches<C>, spare: C,
                    n: nat, placed: seq<Value>, u: Value, rest: seq<Value>, c: C, s: Merge<C>)
    requires n < 3 && spare !in before && AreMatches(before, p, ms) && MatchAt(ms, n) == Some(c)
    requires Core(before, p, ms, spare, n + 1, placed, [u] + rest, n, s)
    requires Rank(u) < n && u !in rest && forall w :: w in placed ==> Rank(w) < Rank(u)
    requires s.target.Some? ==> placed != []
    ensures c in s.convs
    ensures Core(before, p, ms, spare, n + 1, placed + [u], rest, n, PlaceUnused(s, c, u, p.pni, spare))
  {
    hide Core, ApplyChange, AreMatches, TakesUnused;
    PlaceForOne(before, p, ms, spare, n, placed, u, rest, c, s);
    SetOnTarget(before, p, ms, spare, n + 1, placed, rest, n, TargetFor(s, c, u, p.pni, spare), u);
  }

  /** The state in which `PlaceUnused` sets the identifier `u` on the target. */
  function TargetFor<C(==)>(s: Merge<C>, c: C, u: Value, pni: Option<string>, spare: C): Merge<C>
    requires c in s.convs
  {
    if s.target.Some? then s
    else if TakesUnused(s.convs[c], u, pni) then s.(target := Some(c))
    else s.(target := Some(spare), convs := s.convs[spare := Created(u)])
  }

  lemma PlaceForOne<C>(before: map<C, Identity>, p: Provided, ms: Matches<C>, spare: C,
                       n: nat, placed: seq<Value>, u: Value, rest: seq<Value>, c: C, s: Merge<C>)
    requires n < 3 && spare !in before && AreMatches(before, p, ms) && MatchAt(ms, n) == Some(c)
    requires Core(before, p, ms, spare, n + 1, placed, [u] + rest, n, s)
    requires Rank(u) < n && u !in rest && (s.target.Some? ==> placed != [])
    requires forall w :: w in placed ==> Rank(w) < Rank(u)
    ensures c in s.convs
    ensures var t := TargetFor(s, c, u, p.pni, spare);
            && Core(before, p, ms, spare, n + 1, placed, rest, n, t)
            && t.target.Some? && t.target.value in t.convs
            && (forall d :: d in t.convs && Some(d) != t.target ==> !Holds(t.convs[d], u))
            && (u.AciValue? && HasAci(t.convs[t.target.value]) ==> Holds(t.convs[t.target.value], u))
  {
    assert c in before && c in s.convs;
    assert forall w :: w in [u] + rest <==> w == u || w in rest;
    if s.target.Some? {
      assert placed[0] in placed;
    } else if TakesUnused(s.convs[c], u, p.pni) {
      assert MatchedBefore(ms, n + 1, c);
    } else {
      PlaceOnNew(before, p, ms, spare, n, placed, u, rest, c, s);
    }
  }

  lemma PlaceOnNew<C>(before: map<C, Identity>, p: Provided, ms: Matches<C>, spare: C,
                      n: nat, placed: seq<Value>, u: Value, rest: seq<Value>, c: C, s: Merge<C>)
    requires n < 3 && spare !in before && AreMatches(before, p, ms) && MatchAt(ms, n) == Some(c)
    requires Core(before, p, ms, spare, n + 1, placed, [u] + rest, n, s)
    requires Rank(u) < n && u !in rest && s.target.None?
    ensures Core(before, p, ms, spare, n + 1, placed, rest, n, s.(target := Some(spare), convs := s.convs[spare := Created(u)]))
  {
    assert forall w :: w in [u] + rest <==> w == u || w in rest;
    CreateKeepsUnique(s.convs, spare, u);
    hide Unique, MatchedBefore, Holds;
    CreatedHoldsOnly(u);
    NobodyHoldsNothing(u);
  }

  lemma CreatedHoldsOnly(u: Value)
    ensures forall w :: Holds(Created(u), w) ==> w == u
    ensures Holds(Created(u), u)
  {
  }

  predicate Increasing(vs: seq<Value>) {
    forall i, j :: 0 <= i < j < |vs| ==> Rank(vs[i]) < Rank(vs[j])
  }

  lemma IncreasingSplit(placed: seq<Value>, u: Value, rest: seq<Value>)
    requires Increasing(placed + ([u] + rest))
    ensures forall w :: w in placed ==> Rank(w) < Rank(u)
    ensures u !in rest
    ensures Increasing((placed + [u]) + rest)
  {
    var vs := placed + ([u] + rest);
    assert (placed + [u]) + rest == vs;
    hide Rank;
    forall w | w in placed
      ensures Rank(w) < Rank(u)
    {
      var i :| 0 <= i < |placed| && placed[i] == w;
      assert vs[i] == w && vs[|placed|] == u;
    }
    forall j | 0 <= j < |rest|
      ensures rest[j] != u
    {
      assert vs[|placed|] == u && vs[|placed| + 1 + j] == rest[j];
    }
  }

  lemma {:induction false} PlaceAll<C>(before: map<C, Identity>, p: Provided, ms: Matches<C>, spare: C,
                                       n: nat, placed: seq<Value>, rest: seq<Value>, c: C, s: Merge<C>)
    requires n < 3 && spare !in before && AreMatches(before, p, ms) && MatchAt(ms, n) == Some(c)
    requires Core(before, p, ms, spare, n + 1, placed, rest, n, s)
    requires Increasing(placed + rest) && forall v :: v in rest ==> Rank(v) < n
    requires s.target.Some? <==> placed != []
    ensures c in s.convs
    ensures var t := PlaceAllUnused(s, c, rest, p.pni, spare);
            && Core(before, p, ms, spare, n + 1, placed + rest, [], n, t)
            && (t.target.Some? <==> placed + rest != [])
    decreases |rest|
  {
    assert c in before;
    if rest == [] {
      assert placed + rest == placed;
    } else {
      var u := rest[0];
      assert rest == [u] + rest[1..];
      IncreasingSplit(placed, u, rest[1..]);
      PlaceOne(before, p, ms, spare, n, placed, u, rest[1..], c, s);
      assert (placed + [u]) + rest[1..] == placed + rest;
      PlaceAll(before, p, ms, spare, n, placed + [u], rest[1..], c, PlaceUnused(s, c, u, p.pni, spare));
    }
  }

  /** Clearing a match that is not the target, and listing it when that empties it. */
  lemma ClearMatch<C>(before: map<C, Identity>, p: Provided, ms: Matches<C>, spare: C,
                      n: nat, vs: seq<Value>, k: nat, c: C, v: Value, s: Merge<C>)
    requires Core(before, p, ms, spare, n, vs, [], k, s)
    requires c in before && c in s.convs && MatchedBefore(ms, n, c)
    requires s.target.Some? && s.target.value != c && !v.AciValue?
    ensures var rest := ApplyChange(s.convs[c], ClearOn(s.convs[c], v, p.pni));
            var t := s.(convs := s.convs[c := rest],
                        merged := if rest == NOBODY then s.merged + [(s.target.value, c)] else s.merged);
            Core(before, p, ms, spare, n, vs, [], k, t)
  {
    var rest := ApplyChange(s.convs[c], ClearOn(s.convs[c], v, p.pni));
    ClearKeepsUnique(s.convs, c, v, p.pni);
    assert forall w :: Holds(rest, w) ==> Holds(s.convs[c], w);
    ClearIsMerged(before, ms, n, c, rest, s);
    hide Unique, MergedRight;
  }

  lemma ClearIsMerged<C>(before: map<C, Identity>, ms: Matches<C>, n: nat, c: C, rest: Identity, s: Merge<C>)
    requires MergedRight(before, ms, n, s)
    requires c in before && c in s.convs && MatchedBefore(ms, n, c)
    requires s.target.Some? && s.target.value != c && (s.convs[c] == NOBODY ==> rest == NOBODY)
    ensures MergedRight(before, ms, n, s.(convs := s.convs[c := rest],
                                          merged := if rest == NOBODY then s.merged + [(s.target.value, c)] else s.merged))
  {
    var t := s.(convs := s.convs[c := rest],
                merged := if rest == NOBODY then s.merged + [(s.target.value, c)] else s.merged);
    hide MatchedBefore;
    forall d | d in before && before[d] != NOBODY && d in t.convs && t.convs[d] == NOBODY
      ensures exists i :: 0 <= i < |t.merged| && t.merged[i].1 == d
    {
      if d == c {
        assert t.merged[|s.merged|].1 == c;
      } else {
        var i :| 0 <= i < |s.merged| && s.merged[i].1 == d;
        assert t.merged[i] == s.merged[i];
      }
    }
  }

  lemma ClearedHoldsNot(x: Identity, v: Value, pni: Option<string>)
    requires !v.AciValue? && (v.PniValue? ==> pni == Some(v.id))
    ensures !Holds(ApplyChange(x, ClearOn(x, v, pni)), v)
  {
  }

  /** The state before a match `c` is dealt with in turn `n`. */
  ghost predicate AtMatch<C>(before: map<C, Identity>, p: Provided, ms: Matches<C>, spare: C, n: nat, c: C, s: Merge<C>) {
    && n < 3 && AreMatches(before, p, ms) && MatchAt(ms, n) == Some(c)
    && c in before && MatchedBefore(ms, n + 1, c)
    && ValueAt(p, n).Some? && Rank(ValueAt(p, n).value) == n
    && s.unused == []
    && Core(before, p, ms, spare, n + 1, ValuesBefore(p, n), [], n + 1, s)
    && SlotsKept(before, s.convs, n)
    && (s.target.Some? <==> ValuesBefore(p, n) != [])
    && (forall w :: w in ValuesBefore(p, n) ==> Rank(w) < n)
    && (forall d :: d in s.convs && d != c ==> !Holds(s.convs[d], ValueAt(p, n).value))
  }

  lemma ReachMatch<C>(before: map<C, Identity>, p: Provided, ms: Matches<C>, spare: C, n: nat, c: C, s: Merge<C>)
    requires n < 3 && AreMatches(before, p, ms) && MatchAt(ms, n) == Some(c)
    requires ValueAt(p, n).Some? && s.unused == []
    requires Core(before, p, ms, spare, n + 1, ValuesBefore(p, n), [], n, s)
    requires s.target.Some? <==> ValuesBefore(p, n) != []
    ensures AtMatch(before, p, ms, spare, n, c, s)
  {
    ValuesBeforeRank(p, n);
    CoreWithLaterFuture(before, p, ms, spare, n + 1, ValuesBefore(p, n), [], n, s);
    assert forall d :: d in s.convs && Holds(s.convs[d], ValueAt(p, n).value) ==> MatchAt(ms, n) == Some(d);
  }

  lemma TakeAsTarget<C>(before: map<C, Identity>, p: Provided, ms: Matches<C>, spare: C, n: nat, c: C, s: Merge<C>)
    requires AtMatch(before, p, ms, spare, n, c, s) && s.target.None?
    requires n == 2 ==> !PniLost(before, p, ms)
    ensures Stage(before, p, ms, spare, n + 1, TakeFromMatch(s, ValueAt(p, n).value, c, p.pni))
  {
    var v := ValueAt(p, n).value;
    assert ValuesBefore(p, n + 1) == [v];
    assert Holds(s.convs[c], v);
    assert Core(before, p, ms, spare, n + 1, [v], [], n + 1, s.(target := Some(c)));
  }

  // ------------------------------------- the PNI match as the target

  /** The match of the PNI, and the target, once the unused identifiers are placed. */
  function AtPniMatch<C(==)>(before: map<C, Identity>, p: Provided, ms: Matches<C>, spare: C): (t: Merge<C>)
    requires ms.aci.Some? ==> ms.aci.value in before
    requires ms.e164.Some? ==> ms.e164.value in before
    requires ms.pni.Some? && ms.pni.value in before
    ensures ms.pni.value in t.convs && (t.target.Some? ==> t.target.value in t.convs)
  {
    var s := E164Turn(AciTurn(before, p, ms, spare), p, ms, spare);
    PlaceAllUnused(s, ms.pni.value, s.unused, p.pni, spare)
  }

  /** The match of the PNI is to be the result, and has another PNI in its PNI slot. */
  predicate SlotTaken<C(==)>(before: map<C, Identity>, p: Provided, ms: Matches<C>)
    requires ms.pni.Some? ==> ms.pni.value in before
  {
    && ms.pni.Some? && before[ms.pni.value].pni.Some? && before[ms.pni.value].pni != p.pni
    && ms.aci.None? && (p.e164.None? || ms.e164 == ms.pni)
  }

  /** Whether the PNI match is still free to be the target, and what it then holds. */
  ghost predicate PniMatchIsRight<C>(before: map<C, Identity>, p: Provided, ms: Matches<C>, t: Merge<C>)
    requires ms.pni.Some? && ms.pni.value in before && ms.pni.value in t.convs && p.pni.Some?
  {
    var c := ms.pni.value;
    && (t.target == Some(c) && t.convs[c].pni.Some? && !Holds(t.convs[c], PniValue(p.pni.value)) <==> PniLost(before, p, ms))
    && ((t.target.None? || t.target == Some(c)) && t.convs[c].pni.Some? && t.convs[c].pni != p.pni <==> SlotTaken(before, p, ms))
    && (t.target.None? <==> p.aci.None? && p.e164.None?)
    && (t.target.None? ==> t.convs == before)
  }

  lemma PniMatchWithoutAci<C>(before: map<C, Identity>, p: Provided, ms: Matches<C>, spare: C)
    requires Unique(before) && AreMatches(before, p, ms) && spare !in before
    requires ms.pni.Some? && p.aci.None?
    ensures PniMatchIsRight(before, p, ms, AtPniMatch(before, p, ms, spare))
  {
    var c := ms.pni.value;
    var start := Merge(before, None, [], []);
    assert AciTurn(before, p, ms, spare) == start;
    if p.e164.Some? && ms.e164.None? {
      var u := E164Value(p.e164.value);
      assert E164Turn(start, p, ms, spare).unused == [u];
      PlaceSingle(start.(unused := [u]), c, u, p.pni, spare);
    } else {
      assert PlaceAllUnused(start, c, [], p.pni, spare) == start;
    }
  }

  lemma PlaceSingle<C>(s: Merge<C>, c: C, u: Value, pni: Option<string>, spare: C)
    requires c in s.convs && (s.target.Some? ==> s.target.value in s.convs)
    ensures PlaceAllUnused(s, c, [u], pni, spare) == PlaceUnused(s, c, u, pni, spare)
  {
    assert [u][0] == u && [u][1..] == [];
  }

  lemma PniMatchWithAciMatch<C>(before: map<C, Identity>, p: Provided, ms: Matches<C>, spare: C)
    requires Unique(before) && AreMatches(before, p, ms) && spare !in before
    requires ms.pni.Some? && ms.aci.Some?
    ensures PniMatchIsRight(before, p, ms, AtPniMatch(before, p, ms, spare))
  {
    var c, m := ms.pni.value, ms.aci.value;
    var s1 := AciTurn(before, p, ms, spare);
    assert s1.convs == before && s1.target == Some(m) && s1.unused == [];
    var s2 := E164Turn(s1, p, ms, spare);
    assert s2.target == Some(m) && s2.unused == [];
  }

  lemma PniMatchWithNewAci<C>(before: map<C, Identity>, p: Provided, ms: Matches<C>, spare: C)
    requires Unique(before) && AreMatches(before, p, ms) && spare !in before
    requires ms.pni.Some? && p.aci.Some? && ms.aci.None?
    ensures PniMatchIsRight(before, p, ms, AtPniMatch(before, p, ms, spare))
  {
    var c, u := ms.pni.value, AciValue(p.aci.value);
    var s1 := Merge(before, None, [u], []);
    assert AciTurn(before, p, ms, spare) == s1;
    if p.e164.None? {
      PlaceSingle(s1, c, u, p.pni, spare);
    } else if ms.e164.Some? {
      PlaceSingle(s1, ms.e164.value, u, p.pni, spare);
      var s2 := E164Turn(s1, p, ms, spare);
      assert s2.unused == [] && s2.target.Some?;
    } else {
      var w := E164Value(p.e164.value);
      var s2 := E164Turn(s1, p, ms, spare);
      assert s2 == Merge(before, None, [u, w], []);
      assert [u, w][0] == u && [u, w][1..] == [w];
      PlaceSingle(PlaceUnused(s2, c, u, p.pni, spare), c, w, p.pni, spare);
    }
  }

  lemma PniMatchRight<C>(before: map<C, Identity>, p: Provided, ms: Matches<C>, spare: C)
    requires Unique(before) && AreMatches(before, p, ms) && spare !in before && ms.pni.Some?
    ensures PniMatchIsRight(before, p, ms, AtPniMatch(before, p, ms, spare))
  {
    hide *;
    if p.aci.None? {
      PniMatchWithoutAci(before, p, ms, spare);
    } else if ms.aci.Some? {
      PniMatchWithAciMatch(before, p, ms, spare);
    } else {
      PniMatchWithNewAci(before, p, ms, spare);
    }
  }

  lemma TakeFromTarget<C>(before: map<C, Identity>, p: Provided, ms: Matches<C>, spare: C, n: nat, c: C, s: Merge<C>)
    requires AtMatch(before, p, ms, spare, n, c, s) && s.target == Some(c)
    requires n == 2 ==> (PniLost(before, p, ms) <==> s.convs[c].pni.Some? && !Holds(s.convs[c], ValueAt(p, n).value))
    ensures Stage(before, p, ms, spare, n + 1, TakeFromMatch(s, ValueAt(p, n).value, c, p.pni))
  {
    var v := ValueAt(p, n).value;
    var vs := ValuesBefore(p, n);
    assert ValuesBefore(p, n + 1) == vs + [v];
    assert n > 0;
    if SlotEmpty(s.convs[c], v) {
      SetOnTarget(before, p, ms, spare, n + 1, vs, [], n + 1, s, v);
    } else if n == 2 && PniLost(before, p, ms) {
      assert Core(before, p, ms, spare, n + 1, vs, [], n + 1, s);
    } else {
      assert v.E164Value? ==> s.convs[c].e164 == before[c].e164;
      assert TargetHolds(s, vs + [v]);
      assert Core(before, p, ms, spare, n + 1, vs + [v], [], n + 1, s);
    }
  }

  lemma TakeFromOther<C>(before: map<C, Identity>, p: Provided, ms: Matches<C>, spare: C, n: nat, c: C, s: Merge<C>)
    requires AtMatch(before, p, ms, spare, n, c, s) && s.target.Some? && s.target.value != c
    requires n == 2 ==> !PniLost(before, p, ms)
    ensures Stage(before, p, ms, spare, n + 1, TakeFromMatch(s, ValueAt(p, n).value, c, p.pni))
  {
    var v := ValueAt(p, n).value;
    var vs := ValuesBefore(p, n);
    assert ValuesBefore(p, n + 1) == vs + [v];
    assert n > 0;
    hide Unique, MergedRight, FutureHeldByMatches, AcisKept, SlotsKept, OthersUntouched, ApplyChange, ClearOn, Holds;
    ClearMatch(before, p, ms, spare, n + 1, vs, n + 1, c, v, s);
    var rest := ApplyChange(s.convs[c], ClearOn(s.convs[c], v, p.pni));
    var t := s.(convs := s.convs[c := rest],
                merged := if rest == NOBODY then s.merged + [(s.target.value, c)] else s.merged);
    ClearedHoldsNot(s.convs[c], v, p.pni);
    hide Core;
    SetOnTarget(before, p, ms, spare, n + 1, vs, [], n + 1, t, v);
  }

  lemma CoreIgnoresUnused<C>(before: map<C, Identity>, p: Provided, ms: Matches<C>, spare: C,
                             m: nat, vs: seq<Value>, k: nat, s: Merge<C>)
    requires Core(before, p, ms, spare, m, vs, [], k, s)
    ensures Core(before, p, ms, spare, m, vs, [], k, s.(unused := []))
  {
  }

  lemma PlaceForMatch<C>(before: map<C, Identity>, p: Provided, ms: Matches<C>, spare: C, n: nat, c: C, s: Merge<C>)
    requires n < 3 && spare !in before && AreMatches(before, p, ms) && MatchAt(ms, n) == Some(c)
    requires Stage(before, p, ms, spare, n, s)
    ensures c in s.convs
    ensures var t := PlaceAllUnused(s, c, s.unused, p.pni, spare);
            && Core(before, p, ms, spare, n + 1, ValuesBefore(p, n), [], n, t)
            && (t.target.Some? <==> ValuesBefore(p, n) != [])
  {
    var vs := ValuesBefore(p, n);
    ValuesBeforeRank(p, n);
    if s.target.Some? {
      CoreWithMoreMatches(before, p, ms, spare, n, vs, [], n, s);
      assert vs + [] == vs;
      PlaceAll(before, p, ms, spare, n, vs, [], c, s);
    } else {
      CoreWithMoreMatches(before, p, ms, spare, n, [], vs, n, s);
      assert [] + vs == vs;
      PlaceAll(before, p, ms, spare, n, [], vs, c, s);
    }
  }

  lemma MatchedTurn<C>(before: map<C, Identity>, p: Provided, ms: Matches<C>, spare: C, n: nat, c: C, s: Merge<C>)
    requires n < 3 && spare !in before && AreMatches(before, p, ms) && MatchAt(ms, n) == Some(c)
    requires Unique(before) && (n == 2 ==> s == AfterTurns(before, p, ms, spare, 2))
    requires ValueAt(p, n).Some? && Stage(before, p, ms, spare, n, s)
    ensures c in s.convs
    ensures Stage(before, p, ms, spare, n + 1, MergeStep(s, ValueAt(p, n).value, Some(c), p.pni, spare))
  {
    PlaceForMatch(before, p, ms, spare, n, c, s);
    var placed := PlaceAllUnused(s, c, s.unused, p.pni, spare);
    var t := placed.(unused := []);
    CoreIgnoresUnused(before, p, ms, spare, n + 1, ValuesBefore(p, n), n, placed);
    ReachMatch(before, p, ms, spare, n, c, t);
    if n == 2 {
      TwoTurns(before, p, ms, spare);
      PniMatchRight(before, p, ms, spare);
    }
    hide Stage, AtMatch, Core, AfterTurns;
    if t.target.None? {
      TakeAsTarget(before, p, ms, spare, n, c, t);
    } else if t.target == Some(c) {
      TakeFromTarget(before, p, ms, spare, n, c, t);
    } else {
      TakeFromOther(before, p, ms, spare, n, c, t);
    }
  }

  // ------------------------------------------------------- main results

  lemma TwoTurns<C>(before: map<C, Identity>, p: Provided, ms: Matches<C>, spare: C)
    requires AreMatches(before, p, ms)
    ensures AfterTurns(before, p, ms, spare, 2) == E164Turn(AciTurn(before, p, ms, spare), p, ms, spare)
  {
    assert AfterTurns(before, p, ms, spare, 1) == AciTurn(before, p, ms, spare);
  }

  lemma Turn<C>(before: map<C, Identity>, p: Provided, ms: Matches<C>, spare: C, n: nat, s: Merge<C>)
    requires n < 3 && Unique(before) && AreMatches(before, p, ms) && spare !in before
    requires n == 2 ==> s == AfterTurns(before, p, ms, spare, 2)
    requires Stage(before, p, ms, spare, n, s)
    ensures ValueAt(p, n).None? ==> Stage(before, p, ms, spare, n + 1, s)
    ensures MatchAt(ms, n).Some? ==> MatchAt(ms, n).value in s.convs
    ensures s.target.Some? ==> s.target.value in s.convs
    ensures ValueAt(p, n).Some? ==>
              Stage(before, p, ms, spare, n + 1, MergeStep(s, ValueAt(p, n).value, MatchAt(ms, n), p.pni, spare))
  {
    if MatchAt(ms, n).Some? {
      assert MatchAt(ms, n).value in before;
    }
    if ValueAt(p, n).None? {
      SkipTurn(before, p, ms, spare, n, s);
    } else if MatchAt(ms, n).None? {
      UnmatchedTurn(before, p, ms, spare, n, s);
    } else {
      MatchedTurn(before, p, ms, spare, n, MatchAt(ms, n).value, s);
    }
  }

  lemma {:induction false} StageAfterTurns<C>(before: map<C, Identity>, p: Provided, ms: Matches<C>, spare: C, n: nat)
    requires Unique(before)
    requires AreMatches(before, p, ms) && spare !in before && n <= 3
    ensures Stage(before, p, ms, spare, n, AfterTurns(before, p, ms, spare, n))
  {
    if n == 0 {
      StartStage(before, p, ms, spare);
    } else {
      StageAfterTurns(before, p, ms, spare, n - 1);
      Turn(before, p, ms, spare, n - 1, AfterTurns(before, p, ms, spare, n - 1));
    }
  }

  predicate SomethingProvided(p: Provided) {
    p.aci.Some? || p.e164.Some? || p.pni.Some?
  }

  /** What one call of `maybeMergeContacts` does to a collection in which no two
      conversations share an ACI, a phone number or a PNI, for every input and
      every combination of matches:
      the result holds every identifier passed in, but for a PNI that is lost (see
      `PniLost`, which no coherent collection comes to); the collection stays unique;
      no ACI is dropped, overwritten or moved; a conversation is passed to the
      merge exactly if it lost its last identifier, and then it was a match and
      is not the result; whoever was no match keeps everything; and a
      conversation is created only to be the result. */
  lemma MergeContactsIsRight<C>(before: map<C, Identity>, p: Provided, ms: Matches<C>, spare: C)
    requires Unique(before)
    requires AreMatches(before, p, ms) && spare !in before
    requires SomethingProvided(p)
    ensures AllCoherent(before) ==> !PniLost(before, p, ms)
    ensures var r := MergeContacts(before, p, ms, spare);
            && r.target.Some? && r.target.value in r.convs
            && (p.aci.Some? ==> Holds(r.convs[r.target.value], AciValue(p.aci.value)))
            && (p.e164.Some? ==> Holds(r.convs[r.target.value], E164Value(p.e164.value)))
            && (p.pni.Some? ==> (Holds(r.convs[r.target.value], PniValue(p.pni.value)) <==> !PniLost(before, p, ms)))
            && Unique(r.convs)
            && AcisKept(before, r.convs)
            && MergedRight(before, ms, 3, r)
            && OthersUntouched(before, ms, 3, r)
            && before.Keys <= r.convs.Keys <= before.Keys + {spare}
            && (spare in r.convs ==> r.target == Some(spare))
            && (r.target == Some(spare) || MatchedBefore(ms, 3, r.target.value))
  {
    StageAfterTurns(before, p, ms, spare, 3);
    var s := AfterTurns(before, p, ms, spare, 3);
    ThreeValues(p);
    hide Unique, AcisKept, MergedRight, OthersUntouched, Holds;
    if PniLost(before, p, ms) {
      LostIsNotHeld(before, p, ms, spare);
    }
    if s.target.None? {
      CreateWithAll(before, p, ms, s, spare);
    }
  }

  lemma LostIsNotHeld<C>(before: map<C, Identity>, p: Provided, ms: Matches<C>, spare: C)
    requires Unique(before) && AreMatches(before, p, ms) && spare !in before && PniLost(before, p, ms)
    ensures var s := AfterTurns(before, p, ms, spare, 3);
            s.target.Some? && !Holds(s.convs[s.target.value], PniValue(p.pni.value))
  {
    AllTurns(before, p, ms, spare);
    PniMatchRight(before, p, ms, spare);
    hide AfterTurns, E164Turn, AciTurn, PniLost, AreMatches, Unique;
  }

  lemma ThreeValues(p: Provided)
    ensures p.aci.Some? ==> AciValue(p.aci.value) in ValuesBefore(p, 3)
    ensures p.e164.Some? ==> E164Value(p.e164.value) in ValuesBefore(p, 3)
    ensures p.pni.Some? ==> PniValue(p.pni.value) in ValuesBefore(p, 3)
  {
    assert ValuesBefore(p, 1) == if p.aci.Some? then [AciValue(p.aci.value)] else [];
    assert ValuesBefore(p, 2) == ValuesBefore(p, 1) + if p.e164.Some? then [E164Value(p.e164.value)] else [];
    assert ValuesBefore(p, 3) == ValuesBefore(p, 2) + if p.pni.Some? then [PniValue(p.pni.value)] else [];
  }

  lemma CreateWithAll<C>(convs: map<C, Identity>, p: Provided, ms: Matches<C>, s: Merge<C>, spare: C)
    requires Unique(convs) && spare !in convs && s.target.None? && s.convs == convs && s.merged == []
    requires forall v, d :: v in ValuesBefore(p, 3) && d in convs ==> !Holds(convs[d], v)
    ensures var r := CreateIfNoTarget(s, p, spare);
            && Unique(r.convs) && AcisKept(convs, r.convs)
            && MergedRight(convs, ms, 3, r) && OthersUntouched(convs, ms, 3, r)
            && (p.aci.Some? ==> Holds(r.convs[spare], AciValue(p.aci.value)))
            && (p.e164.Some? ==> Holds(r.convs[spare], E164Value(p.e164.value)))
            && (p.pni.Some? ==> Holds(r.convs[spare], PniValue(p.pni.value)))
  {
    ThreeValues(p);
    var x := CreateIfNoTarget(s, p, spare).convs[spare];
    forall d | d in convs
      ensures Disjoint(x, convs[d]) && Disjoint(convs[d], x)
    {
      assert p.aci.Some? ==> !Holds(convs[d], AciValue(p.aci.value));
      assert p.e164.Some? ==> !Holds(convs[d], E164Value(p.e164.value));
      assert p.pni.Some? ==> !Holds(convs[d], PniValue(p.pni.value));
    }
  }

  lemma {:induction false} PlacingKeepsWellFormed<C>(s: Merge<C>, c: C, us: seq<Value>, pni: Option<string>, spare: C)
    requires c in s.convs && (s.target.Some? ==> s.target.value in s.convs)
    requires AllWellFormed(s.convs) && forall u :: u in us ==> !u.PniValue?
    ensures AllWellFormed(PlaceAllUnused(s, c, us, pni, spare).convs)
    decreases |us|
  {
    if us != [] {
      PlaceAllKeepsOne(s, c, us[0], pni, spare);
      PlacingKeepsWellFormed(PlaceUnused(s, c, us[0], pni, spare), c, us[1..], pni, spare);
    }
  }

  lemma PlaceAllKeepsOne<C>(s: Merge<C>, c: C, u: Value, pni: Option<string>, spare: C)
    requires c in s.convs && (s.target.Some? ==> s.target.value in s.convs)
    requires AllWellFormed(s.convs) && !u.PniValue?
    ensures AllWellFormed(PlaceUnused(s, c, u, pni, spare).convs)
  {
    var x := if s.target.Some? then s.convs[s.target.value]
             else if TakesUnused(s.convs[c], u, pni) then s.convs[c] else Created(u);
    ApplyKeepsWellFormed(x, u, pni);
  }

  lemma TakingKeepsWellFormed<C>(t: Merge<C>, v: Value, c: C, pni: Option<string>)
    requires c in t.convs && (t.target.Some? ==> t.target.value in t.convs)
    requires AllWellFormed(t.convs) && (v.AciValue? ==> t.target.None?)
    ensures AllWellFormed(TakeFromMatch(t, v, c, pni).convs)
  {
    ApplyKeepsWellFormed(t.convs[c], v, pni);
    if t.target.Some? {
      ApplyKeepsWellFormed(t.convs[t.target.value], v, pni);
    }
  }

  lemma StepKeepsWellFormed<C>(s: Merge<C>, v: Value, m: Option<C>, pni: Option<string>, spare: C)
    requires m.Some? ==> m.value in s.convs
    requires s.target.Some? ==> s.target.value in s.convs
    requires AllWellFormed(s.convs) && forall u :: u in s.unused ==> !u.PniValue?
    requires v.AciValue? ==> s.target.None? && s.unused == []
    ensures AllWellFormed(MergeStep(s, v, m, pni, spare).convs)
  {
    if m.None? {
      if s.target.Some? { ApplyKeepsWellFormed(s.convs[s.target.value], v, pni); }
    } else {
      PlacingKeepsWellFormed(s, m.value, s.unused, pni, spare);
      TakingKeepsWellFormed(PlaceAllUnused(s, m.value, s.unused, pni, spare).(unused := []), v, m.value, pni);
    }
  }

  lemma {:induction false} TurnsKeepWellFormed<C>(before: map<C, Identity>, p: Provided, ms: Matches<C>, spare: C, n: nat)
    requires AllWellFormed(before) && AreMatches(before, p, ms) && n <= 3
    ensures var s := AfterTurns(before, p, ms, spare, n);
            && AllWellFormed(s.convs)
            && (n == 0 ==> s.target.None?)
            && (forall u :: u in s.unused ==> Rank(u) < n)
  {
    if n > 0 {
      var s := AfterTurns(before, p, ms, spare, n - 1);
      TurnsKeepWellFormed(before, p, ms, spare, n - 1);
      assert n == 1 ==> forall u :: u !in s.unused;
      if ValueAt(p, n - 1).Some? {
        StepKeepsWellFormed(s, ValueAt(p, n - 1).value, MatchAt(ms, n - 1), p.pni, spare);
      }
    }
  }

  /** From a well-formed collection the result is well-formed, so the PNI is in
      its own slot, and in the `serviceId` slot when there is no ACI. */
  lemma MergeContactsKeepsWellFormed<C>(before: map<C, Identity>, p: Provided, ms: Matches<C>, spare: C)
    requires Unique(before) && AllWellFormed(before)
    requires AreMatches(before, p, ms) && spare !in before
    requires SomethingProvided(p)
    ensures var r := MergeContacts(before, p, ms, spare);
            && AllWellFormed(r.convs)
            && r.target.Some? && r.target.value in r.convs
            && var x := r.convs[r.target.value];
            && (p.aci.Some? ==> x.serviceId == Some(Aci(p.aci.value)))
            && (p.e164.Some? ==> x.e164 == p.e164)
            && (p.pni.Some? ==> x.pni == p.pni && (HasAci(x) || x.serviceId == AsServiceId(p.pni)))
  {
    TurnsKeepWellFormed(before, p, ms, spare, 3);
    MergeContactsIsRight(before, p, ms, spare);
  }

  /** A second call with the same identifiers finds them all on the same
      conversation, changes no field and requests no merge: exactly when the first
      did not lose the PNI. */
  lemma MergeContactsIsIdempotent<C>(before: map<C, Identity>, p: Provided, ms: Matches<C>, spare: C,
                                     again: Matches<C>, other: C)
    requires Unique(before)
    requires AreMatches(before, p, ms) && spare !in before
    requires SomethingProvided(p)
    requires var r := MergeContacts(before, p, ms, spare); AreMatches(r.convs, p, again)
    ensures var r := MergeContacts(before, p, ms, spare);
            MergeContacts(r.convs, p, again, other) == Merge(r.convs, r.target, [], []) <==> !PniLost(before, p, ms)
  {
    var r := MergeContacts(before, p, ms, spare);
    MergeContactsIsRight(before, p, ms, spare);
    var t := r.target.value;
    if p.aci.Some? { OneHolder(r.convs, AciValue(p.aci.value), t, again.aci.value); }
    if p.e164.Some? { OneHolder(r.convs, E164Value(p.e164.value), t, again.e164.value); }
    if PniLost(before, p, ms) {
      LostPniIsSetAgain(r.convs, p, again, t, other);
    } else {
      if p.pni.Some? {
        OneHolder(r.convs, PniValue(p.pni.value), t, again.pni.value);
        PniSlotExactlyWhen(before, p, ms, spare);
      }
      SettledStaysPut(r.convs, p, again, t, other);
    }
  }

  /** The lost PNI arrives anew, and is now set on the conversation with the ACI. */
  lemma LostPniIsSetAgain<C>(convs: map<C, Identity>, p: Provided, ms: Matches<C>, t: C, spare: C)
    requires AreMatches(convs, p, ms) && t in convs && p.aci.Some? && p.pni.Some?
    requires ms.aci == Some(t) && (p.e164.Some? ==> ms.e164 == Some(t))
    requires !Holds(convs[t], PniValue(p.pni.value))
    ensures MergeContacts(convs, p, ms, spare) != Merge(convs, Some(t), [], [])
  {
    AllTurns(convs, p, ms, spare);
    SettledTwoTurns(convs, p, ms, t, spare);
    PniMatchNot(convs, p, ms, t);
    hide AciTurn, E164Turn, AfterTurns, AreMatches;
    var r := PniTurn(Merge(convs, Some(t), [], []), p, ms, spare);
    assert r.target == Some(t) && Holds(r.convs[t], PniValue(p.pni.value));
  }

  lemma PniMatchNot<C>(convs: map<C, Identity>, p: Provided, ms: Matches<C>, t: C)
    requires AreMatches(convs, p, ms) && t in convs && p.pni.Some? && !Holds(convs[t], PniValue(p.pni.value))
    ensures ms.pni != Some(t) && (ms.pni.Some? ==> ms.pni.value in convs)
  {
  }

  lemma SettledTwoTurns<C>(convs: map<C, Identity>, p: Provided, ms: Matches<C>, t: C, spare: C)
    requires AreMatches(convs, p, ms) && t in convs
    requires p.aci.Some? ==> ms.aci == Some(t)
    requires p.e164.Some? ==> ms.e164 == Some(t)
    ensures E164Turn(AciTurn(convs, p, ms, spare), p, ms, spare) ==
            Merge(convs, if p.aci.Some? || p.e164.Some? then Some(t) else None, [], [])
  {
    assert PlaceAllUnused(Merge(convs, None, [], []), t, [], p.pni, spare) == Merge(convs, None, [], []);
    assert AciTurn(convs, p, ms, spare) == Merge(convs, if p.aci.Some? then Some(t) else None, [], []);
  }

  lemma SettledStaysPut<C>(convs: map<C, Identity>, p: Provided, ms: Matches<C>, t: C, spare: C)
    requires AreMatches(convs, p, ms) && t in convs && SomethingProvided(p)
    requires p.aci.Some? ==> ms.aci == Some(t)
    requires p.e164.Some? ==> ms.e164 == Some(t)
    requires p.pni.Some? ==> ms.pni == Some(t) && (convs[t].pni.Some? || (p.aci.None? && p.e164.None?))
    ensures MergeContacts(convs, p, ms, spare) == Merge(convs, Some(t), [], [])
  {
    AllTurns(convs, p, ms, spare);
    SettledTwoTurns(convs, p, ms, t, spare);
    assert PlaceAllUnused(Merge(convs, None, [], []), t, [], p.pni, spare) == Merge(convs, None, [], []);
  }

  // ------------------------------------ where the code does less than hoped

  /** Without its phone number, and the PNI given, nothing is left. */
  predicate LosesAll(x: Identity, pni: Option<string>) {
    x.serviceId.None? || x.serviceId == AsServiceId(pni) || x.serviceId == AsServiceId(x.pni)
  }

  /** An obsolete conversation can be passed to the merge twice: exactly when the
      phone number and the PNI matched one conversation, the ACI matched another,
      and the first has no ACI, nor a third PNI in the `serviceId` slot. */
  lemma PassedTwiceExactlyWhen<C>(before: map<C, Identity>, p: Provided, ms: Matches<C>, spare: C)
    requires Unique(before)
    requires AreMatches(before, p, ms) && spare !in before
    requires SomethingProvided(p)
    ensures var m := MergeContacts(before, p, ms, spare).merged;
            (exists i, j :: 0 <= i < j < |m| && m[i].1 == m[j].1) <==>
            (ms.aci.Some? && ms.e164.Some? && ms.pni == ms.e164 && ms.aci != ms.e164
             && LosesAll(before[ms.e164.value], p.pni))
  {
    MergesOfTurns(before, p, ms, spare);
    var s2 := E164Turn(AciTurn(before, p, ms, spare), p, ms, spare);
    var m := MergeContacts(before, p, ms, spare).merged;
    MergedByE164(before, p, ms, spare);
    MergedByPni(s2, p, ms, spare);
    hide AfterTurns, MergeContacts, AciTurn, E164Turn, PniTurn, Unique;
    if s2.merged != [] && ms.pni == ms.e164 {
      assert m[0].1 == m[1].1;
    }
  }

  lemma MergesOfTurns<C>(before: map<C, Identity>, p: Provided, ms: Matches<C>, spare: C)
    requires AreMatches(before, p, ms)
    ensures MergeContacts(before, p, ms, spare).merged ==
            PniTurn(E164Turn(AciTurn(before, p, ms, spare), p, ms, spare), p, ms, spare).merged
  {
    AllTurns(before, p, ms, spare);
  }

  lemma MergedByPni<C>(s: Merge<C>, p: Provided, ms: Matches<C>, spare: C)
    requires ms.pni.Some? ==> p.pni.Some? && ms.pni.value in s.convs
    requires s.target.Some? ==> s.target.value in s.convs
    ensures var m := PniTurn(s, p, ms, spare).merged;
            && (m == s.merged || (ms.pni.Some? && |m| == |s.merged| + 1 && m[..|s.merged|] == s.merged
                                  && m[|s.merged|].1 == ms.pni.value))
            && ((s.target.Some? && s.unused == [] && ms.pni.Some? && ms.pni != s.target
                 && s.convs[ms.pni.value] == NOBODY) ==> m != s.merged)
  {
  }

  lemma MergedByE164<C>(before: map<C, Identity>, p: Provided, ms: Matches<C>, spare: C)
    requires Unique(before)
    requires AreMatches(before, p, ms) && spare !in before
    ensures var s2 := E164Turn(AciTurn(before, p, ms, spare), p, ms, spare);
            && (s2.merged != [] ==>
                  && ms.aci.Some? && ms.e164.Some? && ms.aci != ms.e164 && LosesAll(before[ms.e164.value], p.pni)
                  && s2.merged == [(ms.aci.value, ms.e164.value)] && s2.target == ms.aci
                  && s2.convs[ms.e164.value] == NOBODY && s2.unused == [])
            && ((ms.aci.Some? && ms.e164.Some? && ms.aci != ms.e164 && LosesAll(before[ms.e164.value], p.pni)
                 && ms.pni == ms.e164) ==> s2.merged != [])
  {
    var s1 := AciTurn(before, p, ms, spare);
    if p.e164.Some? && ms.e164.Some? && s1.target.None? {
      var c := ms.e164.value;
      assert s1.unused == [] || s1.unused == [AciValue(p.aci.value)];
      assert PlaceAllUnused(s1, c, s1.unused, p.pni, spare) ==
             if s1.unused == [] then s1 else PlaceUnused(s1, c, s1.unused[0], p.pni, spare);
    }
  }

  /** The state in which the PNI is looked at. */
  lemma BeforePniTurn<C>(before: map<C, Identity>, p: Provided, ms: Matches<C>, spare: C)
    requires Unique(before)
    requires AreMatches(before, p, ms) && spare !in before
    ensures var s := E164Turn(AciTurn(before, p, ms, spare), p, ms, spare);
            && (s.target.None? ==> s.convs == before && s.unused == ValuesBefore(p, 2))
            && (s.target.Some? ==> s.unused == [])
            && (p.aci.None? && ms.e164.Some? ==> s == Merge(before, ms.e164, [], []))
            && (p.aci.None? && ms.e164.None? ==> s.target.None?)
  {
    assert ValuesBefore(p, 1) == if p.aci.Some? then [AciValue(p.aci.value)] else [];
    assert ValuesBefore(p, 2) == ValuesBefore(p, 1) + if p.e164.Some? then [E164Value(p.e164.value)] else [];
  }

  lemma StageTwo<C>(before: map<C, Identity>, p: Provided, ms: Matches<C>, spare: C)
    requires Unique(before)
    requires AreMatches(before, p, ms) && spare !in before
    ensures Stage(before, p, ms, spare, 2, E164Turn(AciTurn(before, p, ms, spare), p, ms, spare))
  {
    TwoTurns(before, p, ms, spare);
    StageAfterTurns(before, p, ms, spare, 2);
  }

  /** A PNI match still has its old PNI slot, or an empty one, when it is taken from. */
  lemma PniMatchSlot<C>(before: map<C, Identity>, p: Provided, ms: Matches<C>, spare: C, c: C)
    requires Unique(before) && AllCoherent(before)
    requires AreMatches(before, p, ms) && spare !in before && ms.pni == Some(c)
    ensures var s := E164Turn(AciTurn(before, p, ms, spare), p, ms, spare);
            && c in s.convs && (s.target.Some? ==> s.target.value in s.convs)
            && var t := PlaceAllUnused(s, c, s.unused, p.pni, spare);
            && (t.convs[c].pni.None? || t.convs[c].pni == p.pni)
            && (t.target.None? <==> ValuesBefore(p, 2) == [])
            && (p.aci.Some? ==> t.target.Some? && HasAci(t.convs[t.target.value]))
  {
    StageTwo(before, p, ms, spare);
    var s := E164Turn(AciTurn(before, p, ms, spare), p, ms, spare);
    PlaceForMatch(before, p, ms, spare, 2, c, s);
    var t := PlaceAllUnused(s, c, s.unused, p.pni, spare);
    assert SlotsKept(before, t.convs, 2);
    assert Coherent(before[c]) && Holds(before[c], PniValue(p.pni.value));
    if p.aci.Some? {
      assert AciValue(p.aci.value) in ValuesBefore(p, 1);
      assert AciValue(p.aci.value) in ValuesBefore(p, 2);
    }
  }

  /** The PNI slot of the result.  It stays empty exactly when only a PNI was given
      and its holder has it in the `serviceId` slot alone; and it keeps another PNI
      exactly when that is in the slot of the PNI match, and no other conversation
      is to be the result. */
  lemma PniSlotExactlyWhen<C>(before: map<C, Identity>, p: Provided, ms: Matches<C>, spare: C)
    requires Unique(before)
    requires AreMatches(before, p, ms) && spare !in before
    requires p.pni.Some?
    ensures var r := MergeContacts(before, p, ms, spare);
            && r.target.Some? && r.target.value in r.convs
            && (r.convs[r.target.value].pni.None? <==>
                p.aci.None? && p.e164.None? && ms.pni.Some? && before[ms.pni.value].pni.None?)
            && (r.convs[r.target.value].pni.Some? ==>
                (r.convs[r.target.value].pni != p.pni <==> SlotTaken(before, p, ms)))
  {
    AllTurns(before, p, ms, spare);
    if ms.pni.Some? {
      PniMatchRight(before, p, ms, spare);
      var t := AtPniMatch(before, p, ms, spare).(unused := []);
      TakenPniSlot(t, p.pni.value, ms.pni.value);
    }
    hide AciTurn, E164Turn, AfterTurns, AreMatches, Unique;
  }

  lemma TakenPniSlot<C>(t: Merge<C>, p: string, c: C)
    requires c in t.convs && (t.target.Some? ==> t.target.value in t.convs)
    ensures var r := TakeFromMatch(t, PniValue(p), c, Some(p));
            var x := r.convs[r.target.value].pni;
            if t.target.None? || (t.target == Some(c) && t.convs[c].pni.Some?) then r.target == Some(c) && x == t.convs[c].pni
            else r.target == t.target && x == Some(p)
  {
  }

  lemma SetCoherentWhen(x: Identity, v: Value, pni: Option<string>)
    requires Coherent(x)
    ensures Coherent(ApplyChange(x, SetTo(v))) <==>
            !(v.PniValue? && x.serviceId.Some? && x.serviceId.value.Pni? && x.pni.None? && x.serviceId != Some(Pni(v.id)))
    ensures Coherent(ApplyChange(x, ClearOn(x, v, pni)))
  {
  }

  lemma {:induction false} PlacingKeepsCoherent<C>(s: Merge<C>, c: C, us: seq<Value>, pni: Option<string>, spare: C)
    requires c in s.convs && (s.target.Some? ==> s.target.value in s.convs)
    requires AllCoherent(s.convs) && forall u :: u in us ==> !u.PniValue?
    ensures AllCoherent(PlaceAllUnused(s, c, us, pni, spare).convs)
    decreases |us|
  {
    if us != [] {
      PlacingKeepsCoherent(PlaceUnused(s, c, us[0], pni, spare), c, us[1..], pni, spare);
    }
  }

  /** Before the PNI turn nothing incoherent can arise. */
  lemma CoherentBeforePniTurn<C>(before: map<C, Identity>, p: Provided, ms: Matches<C>, spare: C)
    requires AllCoherent(before) && AreMatches(before, p, ms)
    ensures AllCoherent(E164Turn(AciTurn(before, p, ms, spare), p, ms, spare).convs)
  {
    var s := AciTurn(before, p, ms, spare);
    if p.e164.Some? && ms.e164.Some? {
      PlacingKeepsCoherent(s, ms.e164.value, s.unused, p.pni, spare);
      TakeE164Coherent(PlaceAllUnused(s, ms.e164.value, s.unused, p.pni, spare).(unused := []),
                       p.e164.value, ms.e164.value, p.pni);
    }
  }

  lemma TakeE164Coherent<C>(t: Merge<C>, e164: string, c: C, pni: Option<string>)
    requires c in t.convs && AllCoherent(t.convs)
    requires t.target.Some? ==> t.target.value in t.convs
    ensures AllCoherent(TakeFromMatch(t, E164Value(e164), c, pni).convs)
  {
    SetCoherentWhen(t.convs[c], E164Value(e164), pni);
    if t.target.Some? {
      SetCoherentWhen(t.convs[t.target.value], E164Value(e164), pni);
    }
  }

  /** A conversation that holds a PNI only in its `serviceId` slot can end up
      with two PNIs: exactly when no ACI is given, it is the match of the phone
      number, and the PNI given is another one. */
  lemma CoherenceKeptExactlyWhen<C>(before: map<C, Identity>, p: Provided, ms: Matches<C>, spare: C)
    requires Unique(before) && AllCoherent(before)
    requires AreMatches(before, p, ms) && spare !in before
    requires SomethingProvided(p)
    ensures AllCoherent(MergeContacts(before, p, ms, spare).convs) <==> !TwoPnisArise(before, p, ms)
  {
    AllTurns(before, p, ms, spare);
    BeforePniTurn(before, p, ms, spare);
    CoherentBeforePniTurn(before, p, ms, spare);
    if p.pni.Some? {
      if p.aci.None? && ms.e164.Some? {
        PniOnE164Match(before, p, ms, spare);
      } else if ms.pni.Some? {
        PniFromMatch(before, p, ms, spare, ms.pni.value);
      } else {
        PniUnmatched(before, p, ms, spare);
      }
    }
  }

  predicate TwoPnisArise<C>(before: map<C, Identity>, p: Provided, ms: Matches<C>)
    requires ms.e164.Some? ==> ms.e164.value in before
  {
    && p.aci.None? && p.pni.Some? && ms.e164.Some?
    && var x := before[ms.e164.value];
    && x.serviceId.Some? && x.serviceId.value.Pni?
    && x.pni.None? && x.serviceId != AsServiceId(p.pni)
  }

  lemma PniOnE164Match<C>(before: map<C, Identity>, p: Provided, ms: Matches<C>, spare: C)
    requires AllCoherent(before) && AreMatches(before, p, ms)
    requires p.aci.None? && p.pni.Some? && ms.e164.Some?
    ensures AllCoherent(PniTurn(Merge(before, ms.e164, [], []), p, ms, spare).convs) <==> !TwoPnisArise(before, p, ms)
  {
    var v := PniValue(p.pni.value);
    var t := ms.e164.value;
    var r := PniTurn(Merge(before, ms.e164, [], []), p, ms, spare);
    SetCoherentWhen(before[t], v, p.pni);
    assert Coherent(r.convs[t]) <==> !TwoPnisArise(before, p, ms);
  }

  lemma PniUnmatched<C>(before: map<C, Identity>, p: Provided, ms: Matches<C>, spare: C)
    requires Unique(before) && AllCoherent(before)
    requires AreMatches(before, p, ms) && spare !in before
    requires p.pni.Some? && ms.pni.None? && (p.aci.Some? || ms.e164.None?)
    ensures AllCoherent(MergeContacts(before, p, ms, spare).convs)
  {
    AllTurns(before, p, ms, spare);
    CoherentBeforePniTurn(before, p, ms, spare);
    TargetBeforePniTurn(before, p, ms, spare);
    hide AciTurn, E164Turn, AfterTurns, AreMatches, Unique, ApplyChange;
    var s := E164Turn(AciTurn(before, p, ms, spare), p, ms, spare);
    if s.target.Some? {
      SetCoherentWhen(s.convs[s.target.value], PniValue(p.pni.value), p.pni);
    }
  }

  /** Unless only the phone number has a match, the target of the first two turns
      has the ACI. */
  lemma TargetBeforePniTurn<C>(before: map<C, Identity>, p: Provided, ms: Matches<C>, spare: C)
    requires Unique(before) && AllCoherent(before)
    requires AreMatches(before, p, ms) && spare !in before
    requires p.aci.Some? || ms.e164.None?
    ensures var s := E164Turn(AciTurn(before, p, ms, spare), p, ms, spare);
            s.target.Some? ==> HasAci(s.convs[s.target.value])
  {
    if p.aci.None? {
      BeforePniTurn(before, p, ms, spare);
    } else {
      StageTwo(before, p, ms, spare);
      assert AciValue(p.aci.value) in ValuesBefore(p, 1);
      assert AciValue(p.aci.value) in ValuesBefore(p, 2);
    }
  }

  /** `x` has another PNI than `p`, in its `serviceId` slot alone. */
  predicate OtherPniOnly(x: Identity, p: string) {
    x.serviceId.Some? && x.serviceId.value.Pni? && x.pni.None? && x.serviceId != Some(Pni(p))
  }

  lemma TakePniCoherent<C>(t: Merge<C>, p: string, c: C)
    requires c in t.convs && AllCoherent(t.convs)
    requires t.target.Some? ==> t.target.value in t.convs && !OtherPniOnly(t.convs[t.target.value], p)
    ensures AllCoherent(TakeFromMatch(t, PniValue(p), c, Some(p)).convs)
  {
    SetCoherentWhen(t.convs[c], PniValue(p), Some(p));
    if t.target.Some? {
      SetCoherentWhen(t.convs[t.target.value], PniValue(p), Some(p));
    }
  }

  /** Without an ACI and a match on the phone number, the number goes to the PNI
      match or to a new conversation. */
  lemma PlacedE164Only<C>(before: map<C, Identity>, p: Provided, ms: Matches<C>, spare: C, c: C)
    requires Unique(before) && AllCoherent(before)
    requires AreMatches(before, p, ms) && spare !in before
    requires ms.pni == Some(c) && p.aci.None? && ms.e164.None?
    ensures var s := E164Turn(AciTurn(before, p, ms, spare), p, ms, spare);
            && c in s.convs && s.target.None?
            && var t := PlaceAllUnused(s, c, s.unused, p.pni, spare);
            (t.target.Some? ==> t.target.value in t.convs && !OtherPniOnly(t.convs[t.target.value], p.pni.value))
  {
    BeforePniTurn(before, p, ms, spare);
    var s := E164Turn(AciTurn(before, p, ms, spare), p, ms, spare);
    assert ValuesBefore(p, 1) == [];
    assert Coherent(before[c]) && Holds(before[c], PniValue(p.pni.value));
    if p.e164.Some? {
      assert s.unused == [E164Value(p.e164.value)];
      assert PlaceAllUnused(s, c, s.unused, p.pni, spare) == PlaceUnused(s, c, s.unused[0], p.pni, spare);
    }
  }

  lemma PniFromMatch<C>(before: map<C, Identity>, p: Provided, ms: Matches<C>, spare: C, c: C)
    requires Unique(before) && AllCoherent(before)
    requires AreMatches(before, p, ms) && spare !in before
    requires p.pni.Some? && ms.pni == Some(c) && (p.aci.Some? || ms.e164.None?)
    ensures AllCoherent(MergeContacts(before, p, ms, spare).convs)
  {
    AllTurns(before, p, ms, spare);
    CoherentBeforePniTurn(before, p, ms, spare);
    PniMatchSlot(before, p, ms, spare, c);
    if p.aci.None? {
      PlacedE164Only(before, p, ms, spare, c);
    }
    var s := E164Turn(AciTurn(before, p, ms, spare), p, ms, spare);
    NoPniUnused(before, p, ms, spare);
    PlacingKeepsCoherent(s, c, s.unused, p.pni, spare);
    TakePniCoherent(PlaceAllUnused(s, c, s.unused, p.pni, spare).(unused := []), p.pni.value, c);
  }

  lemma NoPniUnused<C>(before: map<C, Identity>, p: Provided, ms: Matches<C>, spare: C)
    requires AreMatches(before, p, ms)
    ensures forall u :: u in E164Turn(AciTurn(before, p, ms, spare), p, ms, spare).unused ==> !u.PniValue?
  {
  }

  // ------------------------------------------- inputs where these fail

  /** An ACI contact, and one with the phone number and the PNI: the second is
      handed over twice. */
  lemma HandedOverTwice()
    ensures var before := map[0 := Identity(Some(Aci("a")), None, None),
                              1 := Identity(Some(Pni("q")), Some("e"), Some("q"))];
            var p, ms := Provided(Some("a"), Some("e"), Some("q")), Matches(Some(0), Some(1), Some(1));
            && Unique(before) && AllWellFormed(before) && AreMatches(before, p, ms)
            && var m := MergeContacts(before, p, ms, 2).merged;
            exists i, j :: 0 <= i < j < |m| && m[i].1 == m[j].1
  {
    var before := map[0 := Identity(Some(Aci("a")), None, None), 1 := Identity(Some(Pni("q")), Some("e"), Some("q"))];
    var p, ms := Provided(Some("a"), Some("e"), Some("q")), Matches(Some(0), Some(1), Some(1));
    assert Unique(before) && AllWellFormed(before) && AreMatches(before, p, ms);
    hide *;
    PassedTwiceExactlyWhen(before, p, ms, 2);
  }

  /** A contact made from a PNI and then given a phone number: the number arrives
      with another PNI, and the contact has two. */
  lemma TwoPnisHappen()
    ensures var before := map[0 := Created(PniValue("q")).(e164 := Some("e"))];
            var p, ms := Provided(None, Some("e"), Some("r")), Matches(None, Some(0), None);
            && Unique(before) && AllCoherent(before) && AreMatches(before, p, ms)
            && var after := map[0 := Identity(Some(Pni("q")), Some("e"), Some("r"))];
            && MergeContacts(before, p, ms, 1) == Merge(after, Some(0), [], []) && !AllCoherent(after)
  {
    var before := map[0 := Created(PniValue("q")).(e164 := Some("e"))];
    var p, ms := Provided(None, Some("e"), Some("r")), Matches(None, Some(0), None);
    AllTurns(before, p, ms, 1);
    assert PlaceAllUnused(Merge(before, None, [], []), 0, [], p.pni, 1) == Merge(before, None, [], []);
    var after := map[0 := Identity(Some(Pni("q")), Some("e"), Some("r"))];
    assert !Coherent(after[0]);
  }

  /** The contact `TwoPnisHappen` leaves: an ACI arrives with the PNI of its
      `serviceId` slot, and the result does not hold that PNI. */
  lemma PniIsLost()
    ensures var before := map[0 := Identity(Some(Pni("q")), Some("e"), Some("r"))];
            var p, ms := Provided(Some("a"), None, Some("q")), Matches(None, None, Some(0));
            && Unique(before) && AreMatches(before, p, ms) && PniLost(before, p, ms)
            && MergeContacts(before, p, ms, 1) ==
               Merge(map[0 := Identity(Some(Aci("a")), Some("e"), Some("r"))], Some(0), [], [])
  {
    var before := map[0 := Identity(Some(Pni("q")), Some("e"), Some("r"))];
    var p, ms := Provided(Some("a"), None, Some("q")), Matches(None, None, Some(0));
    AllTurns(before, p, ms, 1);
    var s := Merge(before, None, [AciValue("a")], []);
    assert PlaceAllUnused(s, 0, s.unused, p.pni, 1) == PlaceUnused(s, 0, AciValue("a"), p.pni, 1);
  }

  /** A contact made from a PNI, found again by that PNI alone: its PNI slot stays
      empty. */
  lemma PniSlotStaysEmpty()
    ensures var before := map[0 := Created(PniValue("q"))];
            var p, ms := Provided(None, None, Some("q")), Matches(None, None, Some(0));
            && Unique(before) && AllCoherent(before) && AreMatches(before, p, ms)
            && var r := MergeContacts(before, p, ms, 1);
            r.target.Some? && r.target.value in r.convs && r.convs[r.target.value].pni == None
  {
    var before := map[0 := Created(PniValue("q"))];
    var p, ms := Provided(None, None, Some("q")), Matches(None, None, Some(0));
    AllTurns(before, p, ms, 1);
    assert PlaceAllUnused(Merge(before, None, [], []), 0, [], p.pni, 1) == Merge(before, None, [], []);
  }

  // --------------------------------- what the object code needs to know

  lemma UnheldWithoutMatch<C>(before: map<C, Identity>, p: Provided, ms: Matches<C>, spare: C, n: nat)
    requires Unique(before)
    requires AreMatches(before, p, ms) && spare !in before && n < 3
    requires ValueAt(p, n).Some? && MatchAt(ms, n).None?
    ensures var s := AfterTurns(before, p, ms, spare, n);
            forall d :: d in s.convs ==> !Holds(s.convs[d], ValueAt(p, n).value)
  {
    StageAfterTurns(before, p, ms, spare, n);
    FutureAt(AfterTurns(before, p, ms, spare, n).convs, p, ms, n);
  }

  lemma UnusedAreUnheld<C>(before: map<C, Identity>, p: Provided, ms: Matches<C>, spare: C, n: nat)
    requires Unique(before)
    requires AreMatches(before, p, ms) && spare !in before && n < 3
    ensures var s := AfterTurns(before, p, ms, spare, n);
            && NoDuplicates(s.unused)
            && forall j, d :: 0 <= j < |s.unused| && d in s.convs ==> !Holds(s.convs[d], s.unused[j])
  {
    StageAfterTurns(before, p, ms, spare, n);
    ValuesBeforeRank(p, n);
  }

  lemma OnlyTheMatchHolds<C>(before: map<C, Identity>, p: Provided, ms: Matches<C>, spare: C, n: nat, c: C)
    requires Unique(before)
    requires AreMatches(before, p, ms) && spare !in before && n < 3
    requires ValueAt(p, n).Some? && MatchAt(ms, n) == Some(c)
    ensures var s := AfterTurns(before, p, ms, spare, n);
            && c in s.convs
            && var t := PlaceAllUnused(s, c, s.unused, p.pni, spare);
            forall d :: d in t.convs && d != c ==> !Holds(t.convs[d], ValueAt(p, n).value)
  {
    StageAfterTurns(before, p, ms, spare, n);
    var s := AfterTurns(before, p, ms, spare, n);
    PlaceForMatch(before, p, ms, spare, n, c, s);
    FutureAt(PlaceAllUnused(s, c, s.unused, p.pni, spare).convs, p, ms, n);
  }

  lemma FutureAt<C>(convs: map<C, Identity>, p: Provided, ms: Matches<C>, n: nat)
    requires FutureHeldByMatches(convs, p, ms, n) && n < 3 && ValueAt(p, n).Some?
    ensures forall d :: d in convs && Holds(convs[d], ValueAt(p, n).value) ==> MatchAt(ms, n) == Some(d)
  {
    assert forall k: nat, d :: k == n && d in convs && Holds(convs[d], ValueAt(p, k).value) ==> MatchAt(ms, k) == Some(d);
  }

  lemma UniqueWhenCreated<C>(before: map<C, Identity>, p: Provided, ms: Matches<C>, spare: C)
    requires Unique(before)
    requires AreMatches(before, p, ms) && spare !in before
    requires AfterTurns(before, p, ms, spare, 3).target.None?
    ensures AfterTurns(before, p, ms, spare, 3).convs == before
    ensures Unique(CreateIfNoTarget(AfterTurns(before, p, ms, spare, 3), p, spare).convs)
  {
    StageAfterTurns(before, p, ms, spare, 3);
    CreateWithAll(before, p, ms, AfterTurns(before, p, ms, spare, 3), spare);
  }
}
