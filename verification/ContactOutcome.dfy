/** The outcome of one call of `maybeMergeContacts` in closed form: which conversation
    is the result, what each slot then holds, and which merges are asked for, without
    the turns that lead there. */
module ContactOutcome {
  import opened Common
  import opened ContactIdentity

  /** The `serviceId` slot is empty, or has just the PNI given or that of the contact. */
  predicate Free(x: Identity, pni: Option<string>) {
    x.serviceId.None? || (x.serviceId.value.Pni? && (pni == Some(x.serviceId.value.id) || x.pni == Some(x.serviceId.value.id)))
  }

  /** Which conversation becomes the result; a new one if there is none.  The match of
      the ACI does.  An ACI without a match goes to the match of the phone number, or
      else to that of the PNI, if its `serviceId` slot is free.  Without an ACI it is the
      match of the phone number, or else that of the PNI, unless the number given would
      replace another one. */
  function Chosen<C(==)>(before: map<C, Identity>, p: Provided, ms: Matches<C>): Option<C>
    requires ms.e164.Some? ==> ms.e164.value in before
    requires ms.pni.Some? ==> ms.pni.value in before
  {
    var first := if ms.e164.Some? then ms.e164 else ms.pni;
    if ms.aci.Some? then ms.aci
    else if p.aci.Some? then (if first.Some? && Free(before[first.value], p.pni) then first else None)
    else if ms.e164.Some? then ms.e164
    else if ms.pni.Some? && (p.e164.None? || before[ms.pni.value].e164.None?) then ms.pni
    else None
  }

  /** The result, if it was `x`: the identifiers given, but for a PNI in whose slot
      another one stays; and the old ones, except for a PNI of another phone number. */
  function Resolved(x: Identity, p: Provided, e164Arrives: bool, pniArrives: bool): Identity {
    Identity(if p.aci.Some? then Some(Aci(p.aci.value))
             else if !Free(x, x.pni) then x.serviceId
             else if pniArrives && p.pni.Some? then Some(Pni(p.pni.value))
             else if e164Arrives then None else x.serviceId,
             if p.e164.Some? then p.e164 else x.e164,
             if pniArrives then p.pni else if e164Arrives then None else x.pni)
  }

  /** What is left of a match that is not the result. */
  function Remains(x: Identity, pni: Option<string>, losesE164: bool): Identity {
    Identity(if Free(x, pni) then None else x.serviceId, if losesE164 then None else x.e164, None)
  }

  /** The number given is not that of the conversation already. */
  predicate E164Arrives<C(==)>(p: Provided, ms: Matches<C>, target: C) {
    p.e164.Some? && ms.e164 != Some(target)
  }

  /** The PNI given is put into its slot: always, but for the match of the PNI, whose
      slot has to be empty, and which must not be the only match looked for. */
  predicate PniArrives<C(==)>(x: Identity, p: Provided, ms: Matches<C>, target: C) {
    p.pni.Some? && (ms.pni != Some(target) || E164Arrives(p, ms, target)
                    || (x.pni.None? && (p.aci.Some? || p.e164.Some?)))
  }

  /** The collection after the call, with result `t`. */
  ghost predicate ConvsAre<C>(before: map<C, Identity>, p: Provided, ms: Matches<C>, t: C, after: map<C, Identity>) {
    var x := if t in before then before[t] else NOBODY;
    && t in after
    && after[t] == Resolved(x, p, E164Arrives(p, ms, t), PniArrives(x, p, ms, t))
    && (forall c :: c in after ==> c in before || c == t)
    && (forall c :: c in before ==> c in after)
    && (forall c :: c in before && c != t ==>
          after[c] == if ms.e164 == Some(c) then Remains(before[c], p.pni, true)
                      else if ms.pni == Some(c) then Remains(before[c], p.pni, false)
                      else before[c])
  }

  /** The merges asked for. */
  ghost function MergesFor<C>(before: map<C, Identity>, p: Provided, ms: Matches<C>, t: C): seq<(C, C)>
    requires AreMatches(before, p, ms)
  {
    (if ms.e164.Some? && ms.e164.value != t && Remains(before[ms.e164.value], p.pni, true) == NOBODY
     then [(t, ms.e164.value)] else [])
    + (if ms.pni.Some? && ms.pni.value != t && Remains(before[ms.pni.value], p.pni, ms.e164 == ms.pni) == NOBODY
       then [(t, ms.pni.value)] else [])
  }

  ghost predicate IsOutcome<C>(before: map<C, Identity>, p: Provided, ms: Matches<C>, spare: C, r: Merge<C>)
    requires AreMatches(before, p, ms)
  {
    var chosen := Chosen(before, p, ms);
    var t := if chosen.Some? then chosen.value else spare;
    && r.target == Some(t)
    && ConvsAre(before, p, ms, t, r.convs)
    && r.merged == MergesFor(before, p, ms, t)
  }

  // One contact at a time.

  lemma SettingPniResolves(x: Identity, p: Provided, arrives: bool)
    requires p.pni.Some?
    ensures ApplyChange(Resolved(x, p, arrives, false), SetTo(PniValue(p.pni.value))) == Resolved(x, p, arrives, true)
  {
  }

  lemma ClearingLeavesRemains(x: Identity, pni: Option<string>, e164: string)
    ensures ApplyChange(x, ClearOn(x, E164Value(e164), pni)) == Remains(x, pni, true)
    ensures pni.Some? ==> ApplyChange(x, ClearOn(x, PniValue(pni.value), pni)) == Remains(x, pni, false)
    ensures pni.Some? ==>
              var y := Remains(x, pni, true); ApplyChange(y, ClearOn(y, PniValue(pni.value), pni)) == Remains(x, pni, true)
  {
  }

  lemma SettingAciResolves(x: Identity, p: Provided)
    requires p.aci.Some?
    ensures var y := ApplyChange(x, SetTo(AciValue(p.aci.value)));
            && y == x.(serviceId := Some(Aci(p.aci.value)))
            && (p.e164.Some? ==> ApplyChange(y, SetTo(E164Value(p.e164.value))) == Resolved(x, p, true, false))
  {
  }

  lemma TakesUnusedAciWhenFree(x: Identity, aci: string, pni: Option<string>)
    ensures TakesUnused(x, AciValue(aci), pni) <==> Free(x, pni)
  {
  }

  /** Where the first two turns have led, if they found a target. */
  ghost predicate TwoTurnsDone<C>(before: map<C, Identity>, p: Provided, ms: Matches<C>, t: C, s: Merge<C>)
    requires AreMatches(before, p, ms)
  {
    && s.target == Some(t) && s.unused == []
    && var x := if t in before then before[t] else NOBODY;
    && s.convs == (if ms.e164.Some? && ms.e164.value != t then before[ms.e164.value := Remains(before[ms.e164.value], p.pni, true)]
                   else before)[t := Resolved(x, p, E164Arrives(p, ms, t), false)]
    && s.merged == if ms.e164.Some? && ms.e164.value != t && Remains(before[ms.e164.value], p.pni, true) == NOBODY
                   then [(t, ms.e164.value)] else []
  }

  lemma AciMatchFirst<C>(before: map<C, Identity>, p: Provided, ms: Matches<C>, spare: C)
    requires AreMatches(before, p, ms) && ms.aci.Some?
    ensures TwoTurnsDone(before, p, ms, ms.aci.value, E164Turn(AciTurn(before, p, ms, spare), p, ms, spare))
  {
    var t := ms.aci.value;
    var s := Merge(before, Some(t), [], []);
    assert AciTurn(before, p, ms, spare) == s;
    SettingAciResolves(before[t], p);
    assert before[t] == before[t].(serviceId := Some(Aci(p.aci.value)));
    assert before == before[t := before[t]];
    hide ApplyChange, AciTurn;
    if ms.e164.Some? {
      ClearingLeavesRemains(before[ms.e164.value], p.pni, p.e164.value);
      assert PlaceAllUnused(s, ms.e164.value, [], p.pni, spare) == s;
    }
  }

  lemma E164MatchFirst<C>(before: map<C, Identity>, p: Provided, ms: Matches<C>, spare: C)
    requires AreMatches(before, p, ms) && p.aci.None? && ms.e164.Some?
    ensures TwoTurnsDone(before, p, ms, ms.e164.value, E164Turn(AciTurn(before, p, ms, spare), p, ms, spare))
  {
    var s := Merge(before, None, [], []);
    assert PlaceAllUnused(s, ms.e164.value, [], p.pni, spare) == s;
    assert before == before[ms.e164.value := before[ms.e164.value]];
  }

  lemma NewAciOnE164Match<C>(before: map<C, Identity>, p: Provided, ms: Matches<C>, spare: C)
    requires AreMatches(before, p, ms) && spare !in before && p.aci.Some? && ms.aci.None? && ms.e164.Some?
    ensures TwoTurnsDone(before, p, ms, if Free(before[ms.e164.value], p.pni) then ms.e164.value else spare,
                         E164Turn(AciTurn(before, p, ms, spare), p, ms, spare))
  {
    var u, c := AciValue(p.aci.value), ms.e164.value;
    var s := Merge(before, None, [u], []);
    assert AciTurn(before, p, ms, spare) == s;
    PlaceSingle(s, c, u, p.pni, spare);
    TakesUnusedAciWhenFree(before[c], p.aci.value, p.pni);
    hide TakesUnused, Free, AciTurn;
    if Free(before[c], p.pni) {
      SettingAciResolves(before[c], p);
    } else {
      NewAciOnSpare(before, p, ms, spare);
    }
  }

  lemma NewAciOnSpare<C>(before: map<C, Identity>, p: Provided, ms: Matches<C>, spare: C)
    requires AreMatches(before, p, ms) && spare !in before && p.aci.Some? && ms.e164.Some?
    requires !TakesUnused(before[ms.e164.value], AciValue(p.aci.value), p.pni)
    ensures var s := Merge(before, None, [AciValue(p.aci.value)], []);
            var t := PlaceUnused(s, ms.e164.value, AciValue(p.aci.value), p.pni, spare).(unused := []);
            TwoTurnsDone(before, p, ms, spare, TakeFromMatch(t, E164Value(p.e164.value), ms.e164.value, p.pni))
  {
    var c := ms.e164.value;
    SettingAciResolves(NOBODY, p);
    SettingAciResolves(Created(AciValue(p.aci.value)), p);
    ClearingLeavesRemains(before[c], p.pni, p.e164.value);
    hide ApplyChange, TakesUnused, AreMatches;
    assert before[spare := Created(AciValue(p.aci.value))][c := Remains(before[c], p.pni, true)] ==
           before[c := Remains(before[c], p.pni, true)][spare := Created(AciValue(p.aci.value))];
  }

  lemma PniTaken<C>(before: map<C, Identity>, p: Provided, ms: Matches<C>, spare: C, t: C, s: Merge<C>)
    requires p.pni.Some? && ms.pni.Some? && ms.pni.value != t && ms.pni.value in before && ms.pni.value in s.convs
    requires s.target == Some(t) && s.unused == [] && t in s.convs
    requires var x := if t in before then before[t] else NOBODY;
             s.convs[t] == Resolved(x, p, E164Arrives(p, ms, t), false)
    requires var y := before[ms.pni.value];
             s.convs[ms.pni.value] == if ms.e164 == ms.pni then Remains(y, p.pni, true) else y
    ensures var c := ms.pni.value;
            var x := if t in before then before[t] else NOBODY;
            var rest := Remains(before[c], p.pni, ms.e164 == ms.pni);
            PniTurn(s, p, ms, spare) ==
            Merge(s.convs[c := rest][t := Resolved(x, p, E164Arrives(p, ms, t), true)], Some(t), [],
                  s.merged + if rest == NOBODY then [(t, c)] else [])
  {
    var x := if t in before then before[t] else NOBODY;
    SettingPniResolves(x, p, E164Arrives(p, ms, t));
    ClearingLeavesRemains(before[ms.pni.value], p.pni, "");
    assert PlaceAllUnused(s, ms.pni.value, [], p.pni, spare) == s;
    hide ApplyChange, ClearOn, Remains, Resolved, E164Arrives;
  }

  /** The PNI, once there is a target: it is with another conversation, */
  lemma PniFromOther<C>(before: map<C, Identity>, p: Provided, ms: Matches<C>, spare: C, t: C, s: Merge<C>)
    requires AreMatches(before, p, ms) && ms.pni.Some? && ms.pni.value != t
    requires TwoTurnsDone(before, p, ms, t, s)
    ensures t in s.convs && ms.pni.value in s.convs
    ensures PniPlaced(before, p, ms, t, PniTurn(s, p, ms, spare))
  {
    MatchesAreThere(before, p, ms);
    hide Remains, Resolved, AreMatches, E164Arrives, PniTurn;
    PniTaken(before, p, ms, spare, t, s);
  }

  /** or with the target, */
  lemma PniFromTarget<C>(before: map<C, Identity>, p: Provided, ms: Matches<C>, spare: C, t: C, s: Merge<C>)
    requires AreMatches(before, p, ms) && ms.pni == Some(t) && (p.aci.Some? || p.e164.Some?)
    requires TwoTurnsDone(before, p, ms, t, s)
    ensures t in s.convs
    ensures PniPlaced(before, p, ms, t, PniTurn(s, p, ms, spare))
  {
    SettingPniResolves(before[t], p, E164Arrives(p, ms, t));
    assert PlaceAllUnused(s, t, [], p.pni, spare) == s;
    var y := Resolved(before[t], p, E164Arrives(p, ms, t), false);
    assert PniArrives(before[t], p, ms, t) <==> y.pni.None?;
    hide ApplyChange, Resolved, AreMatches, PniArrives;
  }

  /** or with nobody, or there is none. */
  lemma PniFromNobody<C>(before: map<C, Identity>, p: Provided, ms: Matches<C>, spare: C, t: C, s: Merge<C>)
    requires AreMatches(before, p, ms) && ms.pni.None?
    requires TwoTurnsDone(before, p, ms, t, s)
    ensures t in s.convs
    ensures PniPlaced(before, p, ms, t, PniTurn(s, p, ms, spare))
  {
    var x := if t in before then before[t] else NOBODY;
    if p.pni.Some? {
      SettingPniResolves(x, p, E164Arrives(p, ms, t));
    }
    hide ApplyChange, Resolved, Remains, AreMatches;
  }

  /** The state after all three turns, if there is a target. */
  ghost predicate PniPlaced<C>(before: map<C, Identity>, p: Provided, ms: Matches<C>, t: C, r: Merge<C>)
    requires AreMatches(before, p, ms)
  {
    r.target == Some(t) && ConvsAre(before, p, ms, t, r.convs) && r.merged == MergesFor(before, p, ms, t)
  }

  lemma PniAfterTarget<C>(before: map<C, Identity>, p: Provided, ms: Matches<C>, spare: C, t: C, s: Merge<C>)
    requires AreMatches(before, p, ms) && (p.aci.Some? || p.e164.Some?)
    requires TwoTurnsDone(before, p, ms, t, s)
    ensures t in s.convs && (ms.pni.Some? ==> ms.pni.value in s.convs)
    ensures PniPlaced(before, p, ms, t, PniTurn(s, p, ms, spare))
  {
    hide *;
    if ms.pni.None? {
      PniFromNobody(before, p, ms, spare, t, s);
    } else if ms.pni.value == t {
      PniFromTarget(before, p, ms, spare, t, s);
    } else {
      PniFromOther(before, p, ms, spare, t, s);
    }
  }

  /** Without a match of the ACI or of the phone number. */
  lemma NoEarlierMatch<C>(before: map<C, Identity>, p: Provided, ms: Matches<C>, spare: C)
    requires AreMatches(before, p, ms) && ms.aci.None? && ms.e164.None?
    ensures E164Turn(AciTurn(before, p, ms, spare), p, ms, spare) ==
            Merge(before, None, (if p.aci.Some? then [AciValue(p.aci.value)] else [])
                                + (if p.e164.Some? then [E164Value(p.e164.value)] else []), [])
  {
  }

  lemma NoMatchAtAll<C>(before: map<C, Identity>, p: Provided, ms: Matches<C>, spare: C)
    requires AreMatches(before, p, ms) && spare !in before && ms.aci.None? && ms.e164.None? && ms.pni.None?
    ensures IsOutcome(before, p, ms, spare, MergeContacts(before, p, ms, spare))
  {
    AllTurns(before, p, ms, spare);
    NoEarlierMatch(before, p, ms, spare);
    hide AfterTurns, AciTurn, E164Turn, AreMatches;
  }

  lemma PniMatchAlone<C>(before: map<C, Identity>, p: Provided, ms: Matches<C>, spare: C)
    requires AreMatches(before, p, ms) && spare !in before && ms.aci.None? && ms.e164.None? && ms.pni.Some?
    requires p.aci.None? && p.e164.None?
    ensures IsOutcome(before, p, ms, spare, MergeContacts(before, p, ms, spare))
  {
    AllTurns(before, p, ms, spare);
    NoEarlierMatch(before, p, ms, spare);
    var s := Merge(before, None, [], []);
    assert PlaceAllUnused(s, ms.pni.value, [], p.pni, spare) == s;
    hide AfterTurns, AciTurn, E164Turn, AreMatches;
  }

  /** The target that the unused identifiers find at the match of the PNI. */
  lemma UnusedAtPniMatch<C>(before: map<C, Identity>, p: Provided, ms: Matches<C>, spare: C, us: seq<Value>)
    requires AreMatches(before, p, ms) && spare !in before && ms.aci.None? && ms.e164.None? && ms.pni.Some?
    requires us == (if p.aci.Some? then [AciValue(p.aci.value)] else [])
                   + (if p.e164.Some? then [E164Value(p.e164.value)] else [])
    requires us != []
    ensures var chosen := Chosen(before, p, ms);
            var t := if chosen.Some? then chosen.value else spare;
            TwoTurnsDone(before, p, ms, t,
                         PlaceAllUnused(Merge(before, None, us, []), ms.pni.value, us, p.pni, spare).(unused := []))
  {
    var c := ms.pni.value;
    var s := Merge(before, None, us, []);
    if p.aci.Some? {
      TakesUnusedAciWhenFree(before[c], p.aci.value, p.pni);
      SettingAciResolves(before[c], p);
      SettingAciResolves(NOBODY, p);
      SettingAciResolves(Created(us[0]), p);
      if p.e164.None? {
        PlaceSingle(s, c, us[0], p.pni, spare);
      } else {
        assert us[1..] == [us[1]];
        PlaceSingle(PlaceUnused(s, c, us[0], p.pni, spare), c, us[1], p.pni, spare);
      }
      hide TakesUnused, Free, AreMatches;
    } else {
      PlaceSingle(s, c, us[0], p.pni, spare);
    }
  }

  lemma UnusedThenPni<C>(before: map<C, Identity>, p: Provided, ms: Matches<C>, spare: C)
    requires AreMatches(before, p, ms) && spare !in before && ms.aci.None? && ms.e164.None? && ms.pni.Some?
    requires p.aci.Some? || p.e164.Some?
    ensures IsOutcome(before, p, ms, spare, MergeContacts(before, p, ms, spare))
  {
    AllTurns(before, p, ms, spare);
    NoEarlierMatch(before, p, ms, spare);
    var s := E164Turn(AciTurn(before, p, ms, spare), p, ms, spare);
    UnusedAtPniMatch(before, p, ms, spare, s.unused);
    var chosen := Chosen(before, p, ms);
    var t := if chosen.Some? then chosen.value else spare;
    var placed := PlaceAllUnused(s, ms.pni.value, s.unused, p.pni, spare).(unused := []);
    hide AfterTurns, AciTurn, E164Turn, AreMatches, TakeFromMatch, TwoTurnsDone, Chosen, PniPlaced, IsOutcome;
    PniAfterTarget(before, p, ms, spare, t, placed);
    assert PlaceAllUnused(placed, ms.pni.value, [], p.pni, spare) == placed;
    assert placed.(unused := []) == placed;
    PlacedIsOutcome(before, p, ms, spare);
  }

  /** What one call does, in one piece: which conversation is the result, what it then
      is, what is left of the matches, that all others stay as they are, and which
      merges are asked for, in which order.  This holds of every collection. */
  lemma MergeContactsExactly<C>(before: map<C, Identity>, p: Provided, ms: Matches<C>, spare: C)
    requires AreMatches(before, p, ms) && spare !in before
    requires SomethingProvided(p)
    ensures IsOutcome(before, p, ms, spare, MergeContacts(before, p, ms, spare))
  {
    hide *;
    MatchesAreThere(before, p, ms);
    if ms.aci.None? && ms.e164.None? {
      if ms.pni.None? {
        NoMatchAtAll(before, p, ms, spare);
      } else {
        PniMatchFirst(before, p, ms, spare);
      }
    } else {
      EarlierMatch(before, p, ms, spare);
    }
  }

  /** Whose phone number changes.  It is replaced by another on the match of the ACI,
      or on that of the PNI if the ACI has no match and fits there; it is lost by its
      match exactly if that is not the result; it is added without an ACI too. */
  lemma NumbersChangeExactlyWhen<C>(before: map<C, Identity>, p: Provided, ms: Matches<C>, spare: C, c: C)
    requires AreMatches(before, p, ms) && spare !in before
    requires SomethingProvided(p) && c in before
    ensures var r := MergeContacts(before, p, ms, spare);
            && c in r.convs
            && var old', now := before[c].e164, r.convs[c].e164;
            var adopts := ms.aci == Some(c)
                          || (p.aci.Some? && ms.aci.None? && ms.e164.None? && ms.pni == Some(c) && Free(before[c], p.pni));
            && (old'.Some? && now.Some? && now != old' <==> old'.Some? && p.e164.Some? && p.e164 != old' && adopts)
            && (old'.Some? && now.None? <==>
                  ms.e164 == Some(c)
                  && ((ms.aci.Some? && ms.aci != Some(c)) || (p.aci.Some? && ms.aci.None? && !Free(before[c], p.pni))))
            && (old'.None? && now.Some? <==>
                  old'.None? && p.e164.Some?
                  && (adopts || (p.aci.None? && ms.e164.None? && ms.pni == Some(c))))
  {
    MergeContactsExactly(before, p, ms, spare);
    MatchesAreThere(before, p, ms);
    hide MergeContacts, AreMatches, Free;
  }

  lemma PniMatchFirst<C>(before: map<C, Identity>, p: Provided, ms: Matches<C>, spare: C)
    requires AreMatches(before, p, ms) && spare !in before && ms.aci.None? && ms.e164.None? && ms.pni.Some?
    ensures IsOutcome(before, p, ms, spare, MergeContacts(before, p, ms, spare))
  {
    hide *;
    if p.aci.None? && p.e164.None? {
      PniMatchAlone(before, p, ms, spare);
    } else {
      UnusedThenPni(before, p, ms, spare);
    }
  }

  lemma EarlierMatch<C>(before: map<C, Identity>, p: Provided, ms: Matches<C>, spare: C)
    requires AreMatches(before, p, ms) && spare !in before && (ms.aci.Some? || ms.e164.Some?)
    ensures IsOutcome(before, p, ms, spare, MergeContacts(before, p, ms, spare))
  {
    AllTurns(before, p, ms, spare);
    if ms.aci.Some? {
      AciMatchFirst(before, p, ms, spare);
    } else if p.aci.None? {
      E164MatchFirst(before, p, ms, spare);
    } else {
      NewAciOnE164Match(before, p, ms, spare);
    }
    var chosen := Chosen(before, p, ms);
    var t := if chosen.Some? then chosen.value else spare;
    hide AfterTurns, AciTurn, E164Turn, PniTurn, TwoTurnsDone, PniPlaced, IsOutcome, AreMatches, Free;
    PniAfterTarget(before, p, ms, spare, t, E164Turn(AciTurn(before, p, ms, spare), p, ms, spare));
    PlacedIsOutcome(before, p, ms, spare);
  }

  lemma PlacedIsOutcome<C>(before: map<C, Identity>, p: Provided, ms: Matches<C>, spare: C)
    requires AreMatches(before, p, ms)
    requires var chosen := Chosen(before, p, ms);
             PniPlaced(before, p, ms, if chosen.Some? then chosen.value else spare, AfterTurns(before, p, ms, spare, 3))
    ensures IsOutcome(before, p, ms, spare, MergeContacts(before, p, ms, spare))
  {
    hide AfterTurns, Chosen, ConvsAre, MergesFor, AreMatches;
  }

  lemma MatchesAreThere<C>(before: map<C, Identity>, p: Provided, ms: Matches<C>)
    requires AreMatches(before, p, ms)
    ensures ms.aci.Some? ==> p.aci.Some? && ms.aci.value in before && HasAci(before[ms.aci.value])
    ensures ms.e164.Some? ==> ms.e164.value in before && before[ms.e164.value].e164 == p.e164
    ensures ms.pni.Some? ==> p.pni.Some? && ms.pni.value in before
  {
  }
}
