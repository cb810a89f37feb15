/** `maybeMergeContacts`, on the conversation objects. */
module ConversationControllers {
  import opened Common
  import opened ContactIdentity
  import opened Conversations
  import Lookups

  class ConversationController {
    const conversations: ConversationCollection

    constructor (conversations: ConversationCollection)
      ensures this.conversations == conversations
    {
      this.conversations := conversations;
    }

    ghost function View(): map<ConversationModel, Identity>
      reads conversations, conversations.models
    {
      conversations.View()
    }

    ghost predicate Valid()
      reads conversations, conversations.models
    {
      conversations.Valid()
    }

    method ApplyChangeToConversation(c: ConversationModel, suggestedChange: Change)
      requires c in conversations.models
      modifies conversations`byE164, conversations`byServiceId, conversations`byPni, c
      ensures View() == old(View())[c := ApplyChange(old(c.Ids()), suggestedChange)]
      ensures old(Valid() && Lookups.CanBecome(View(), c, ApplyChange(c.Ids(), suggestedChange))) ==> Valid()
    {
      var change := suggestedChange;
      if change.e164.Some? && !Truthy(change.pni) {
        change := change.(pni := Some(None));
      }
      if Truthy(change.pni) && !Truthy(change.serviceId)
         && (c.serviceId.None? || c.serviceId == AsServiceId(c.pni)) {
        change := change.(serviceId := Some(AsServiceId(change.pni.value)));
      }
      if !Truthy(change.serviceId) && change.pni.Some? && !Truthy(change.pni)
         && c.serviceId == AsServiceId(c.pni) {
        change := change.(serviceId := Some(None));
      }
      assert change == FullChange(c.Ids(), suggestedChange);
      UpdateFields(c, change);
    }

    /** The three setters, in the order of the source. */
    method UpdateFields(c: ConversationModel, change: Change)
      requires c in conversations.models
      modifies conversations`byE164, conversations`byServiceId, conversations`byPni, c
      ensures View() == old(View())[c := Changed(old(c.Ids()), change)]
      ensures old(Valid() && Lookups.CanBecome(View(), c, Changed(c.Ids(), change))) ==> Valid()
    {
      ghost var before, x, y := View(), c.Ids(), Changed(c.Ids(), change);
      ghost var x1, x2 := x.(serviceId := y.serviceId), x.(serviceId := y.serviceId, e164 := y.e164);
      if Valid() && Lookups.CanBecome(before, c, y) {
        Lookups.ChangeInSteps(before, c, y);
        Lookups.CanBecomeFrom(before, c, x1, x2);
        Lookups.CanBecomeFrom(before, c, x2, y);
      }
      UpdateTwice(before, c, x1, x2);
      UpdateTwice(before, c, x2, y);
      SetServiceIdIfPresent(c, change);
      assert c.Ids() == x1;
      SetE164IfPresent(c, change);
      assert c.Ids() == x2 && View() == before[c := x2];
      SetPniIfPresent(c, change);
    }

    method SetServiceIdIfPresent(c: ConversationModel, change: Change)
      requires c in conversations.models
      modifies conversations`byE164, conversations`byServiceId, conversations`byPni, c`serviceId
      ensures View() == old(View())[c := old(c.Ids()).(serviceId := Changed(old(c.Ids()), change).serviceId)]
      ensures old(Valid() && Lookups.CanBecome(View(), c, c.Ids().(serviceId := Changed(c.Ids(), change).serviceId))) ==> Valid()
    {
      if change.serviceId.Some? {
        conversations.UpdateServiceId(c, change.serviceId.value);
      } else {
        assert View()[c := c.Ids()] == View();
      }
    }

    method SetE164IfPresent(c: ConversationModel, change: Change)
      requires c in conversations.models
      modifies conversations`byE164, conversations`byServiceId, conversations`byPni, c`e164
      ensures View() == old(View())[c := old(c.Ids()).(e164 := Changed(old(c.Ids()), change).e164)]
      ensures old(Valid() && Lookups.CanBecome(View(), c, c.Ids().(e164 := Changed(c.Ids(), change).e164))) ==> Valid()
    {
      if change.e164.Some? {
        conversations.UpdateE164(c, change.e164.value);
      } else {
        assert View()[c := c.Ids()] == View();
      }
    }

    method SetPniIfPresent(c: ConversationModel, change: Change)
      requires c in conversations.models
      modifies conversations`byE164, conversations`byServiceId, conversations`byPni, c`pni
      ensures View() == old(View())[c := old(c.Ids()).(pni := Changed(old(c.Ids()), change).pni)]
      ensures old(Valid() && Lookups.CanBecome(View(), c, c.Ids().(pni := Changed(c.Ids(), change).pni))) ==> Valid()
    {
      if change.pni.Some? {
        conversations.UpdatePni(c, change.pni.value);
      } else {
        assert View()[c := c.Ids()] == View();
      }
    }

    /** `getOrCreate` for an identifier that leads to no conversation yet; the
        object it makes is `spare`. */
    method GetOrCreate(v: Value, spare: ConversationModel)
      requires Valid() && spare !in conversations.models && spare.Ids() == NOBODY
      requires forall d :: d in View() ==> !Holds(View()[d], v)
      modifies conversations, spare
      ensures Valid() && View() == old(View())[spare := Created(v)]
      ensures conversations.models == old(conversations.models) + [spare]
    {
      var found := conversations.Get(v);
      assert IsMatch(View(), v, found);
      CreateKeepsUnique(View(), spare, v);
      Lookups.UniqueMeansCanBecome(View(), spare, Created(v));
      match v {
        case AciValue(a) => spare.serviceId := Some(Aci(a));
        case E164Value(e) => spare.e164 := Some(e);
        case PniValue(q) => spare.serviceId := Some(Pni(q));
      }
      assert View() == old(View());
      conversations.Add(spare);
    }

    method Give(c: ConversationModel, v: Value)
      requires Valid() && c in conversations.models
      requires forall d :: d in View() && d != c ==> !Holds(View()[d], v)
      modifies conversations`byE164, conversations`byServiceId, conversations`byPni, c
      ensures Valid() && View() == old(View())[c := ApplyChange(old(c.Ids()), SetTo(v))]
    {
      Lookups.SetCanBecome(View(), c, v);
      ApplyChangeToConversation(c, SetTo(v));
    }

    /** An unmatched identifier `u`, when the match `c` comes up. */
    method PlaceOneUnused(c: ConversationModel, target: Option<ConversationModel>, u: Value,
                          pni: Option<string>, spare: ConversationModel, ghost s: Merge<ConversationModel>)
      returns (next: ConversationModel)
      requires s.convs == View() && s.target == target
      requires Valid() && c in conversations.models && (target.Some? ==> target.value in conversations.models)
      requires target.None? ==> spare !in conversations.models && spare.Ids() == NOBODY
      requires forall d :: d in View() ==> !Holds(View()[d], u)
      modifies conversations, conversations.models, spare
      ensures Valid()
      ensures View() == PlaceUnused(s, c, u, pni, spare).convs
      ensures Some(next) == PlaceUnused(s, c, u, pni, spare).target && next in conversations.models
      ensures target.Some? ==> conversations.models == old(conversations.models)
      ensures conversations.models == old(conversations.models) || conversations.models == old(conversations.models) + [spare]
    {
      if target.Some? {
        next := target.value;
      } else if TakesUnused(c.Ids(), u, pni) {
        next := c;
      } else {
        GetOrCreate(u, spare);
        next := spare;
      }
      Give(next, u);
    }

    /** The loop over the unused matches. */
    method PlaceUnusedMatches(c: ConversationModel, target: Option<ConversationModel>, unused: seq<Value>,
                              pni: Option<string>, spare: ConversationModel, ghost s: Merge<ConversationModel>)
      returns (next: Option<ConversationModel>)
      requires s.convs == View() && s.target == target
      requires Valid() && c in conversations.models && (target.Some? ==> target.value in conversations.models)
      requires target.None? ==> spare !in conversations.models && spare.Ids() == NOBODY
      requires NoDuplicates(unused)
      requires forall j, d :: 0 <= j < |unused| && d in View() ==> !Holds(View()[d], unused[j])
      modifies conversations, conversations.models, spare
      ensures Valid()
      ensures View() == PlaceAllUnused(s, c, unused, pni, spare).convs
      ensures next == PlaceAllUnused(s, c, unused, pni, spare).target
      ensures conversations.models == old(conversations.models) || conversations.models == old(conversations.models) + [spare]
      ensures target.Some? ==> conversations.models == old(conversations.models)
      ensures next.Some? ==> next.value in conversations.models
      ensures next.None? ==> spare !in conversations.models && spare.Ids() == NOBODY
    {
      next := target;
      ghost var t := s;
      for i := 0 to |unused|
        invariant Valid() && View() == t.convs && next == t.target
        invariant c in t.convs && (t.target.Some? ==> t.target.value in t.convs)
        invariant PlaceAllUnused(t, c, unused[i..], pni, spare) == PlaceAllUnused(s, c, unused, pni, spare)
        invariant c in conversations.models && (next.Some? ==> next.value in conversations.models)
        invariant next.None? ==> spare !in conversations.models && spare.Ids() == NOBODY
        invariant next == target ==> conversations.models == old(conversations.models)
        invariant conversations.models == old(conversations.models) || conversations.models == old(conversations.models) + [spare]
        invariant target.Some? ==> next == target
        invariant forall j, d :: i <= j < |unused| && d in View() ==> !Holds(View()[d], unused[j])
      {
        var u := unused[i];
        assert unused[i..][0] == u && unused[i..][1..] == unused[i + 1..];
        forall j | i < j < |unused|
          ensures forall d :: d in PlaceUnused(t, c, u, pni, spare).convs ==>
                    !Holds(PlaceUnused(t, c, u, pni, spare).convs[d], unused[j])
        {
          PlacingAddsOnly(t, c, u, pni, spare, unused[j]);
        }
        var chosen := PlaceOneUnused(c, next, u, pni, spare, t);
        next := Some(chosen);
        t := PlaceUnused(t, c, u, pni, spare);
      }
    }

    /** Clearing the match `c` of identifier `v`, and giving `v` to the target. */
    method MoveToTarget(c: ConversationModel, target: ConversationModel, v: Value, pni: Option<string>)
      returns (willMerge: bool)
      requires Valid() && c in conversations.models && target in conversations.models && target != c
      requires forall d :: d in View() && d != c ==> !Holds(View()[d], v)
      requires v.PniValue? ==> pni == Some(v.id)
      modifies conversations`byE164, conversations`byServiceId, conversations`byPni, c, target
      ensures Valid()
      ensures var rest := ApplyChange(old(c.Ids()), ClearOn(old(c.Ids()), v, pni));
              && View() == old(View())[c := rest][target := ApplyChange(old(target.Ids()), SetTo(v))]
              && (willMerge <==> rest == NOBODY)
    {
      Lookups.ClearCanBecome(View(), c, v, pni);
      ApplyChangeToConversation(c, ClearOn(c.Ids(), v, pni));
      assert !Holds(c.Ids(), v);
      willMerge := c.serviceId.None? && c.e164.None? && c.pni.None?;
      Give(target, v);
    }

    /** The match `c` of identifier `v`, when the unused ones are placed. */
    method TakeFrom(c: ConversationModel, target: Option<ConversationModel>, v: Value, pni: Option<string>,
                    ghost s: Merge<ConversationModel>)
      returns (next: ConversationModel, willMerge: bool)
      requires s.convs == View() && s.target == target
      requires Valid() && c in conversations.models && (target.Some? ==> target.value in conversations.models)
      requires forall d :: d in View() && d != c ==> !Holds(View()[d], v)
      requires v.PniValue? ==> pni == Some(v.id)
      modifies conversations`byE164, conversations`byServiceId, conversations`byPni, c, if target.Some? then {target.value} else {}
      ensures Valid()
      ensures next in conversations.models
      ensures var r := TakeFromMatch(s, v, c, pni);
              && View() == r.convs && Some(next) == r.target
              && r.merged == s.merged + (if willMerge then [(next, c)] else [])
    {
      ghost var r := TakeFromMatch(s, v, c, pni);
      assert View()[c] == c.Ids();
      willMerge := false;
      if target.Some? && target.value != c {
        next := target.value;
        assert View()[next] == next.Ids();
        assert r.convs == View()[c := ApplyChange(c.Ids(), ClearOn(c.Ids(), v, pni))]
                                [next := ApplyChange(next.Ids(), SetTo(v))];
        willMerge := MoveToTarget(c, next, v, pni);
      } else {
        next := c;
        if target.Some? && SlotEmpty(c.Ids(), v) {
          Give(c, v);
        }
      }
    }

    /** What `maybeMergeContacts` promises about the collection `before` and the
        result; the matches and the created object are as it found them. */
    ghost predicate Merged(before: map<ConversationModel, Identity>, p: Provided,
                           ms: Matches<ConversationModel>, spare: ConversationModel,
                           conversation: ConversationModel, merges: seq<(ConversationModel, ConversationModel)>)
      reads conversations, conversations.models
    {
      && AreMatches(before, p, ms) && spare !in before
      && View() == MergeContacts(before, p, ms, spare).convs
      && Some(conversation) == MergeContacts(before, p, ms, spare).target
      && merges == MergeContacts(before, p, ms, spare).merged
    }

    method FindMatches(p: Provided) returns (ms: Matches<ConversationModel>)
      requires Valid()
      ensures AreMatches(View(), p, ms)
    {
      var aciMatch, e164Match, pniMatch := None, None, None;
      if p.aci.Some? { aciMatch := conversations.Get(AciValue(p.aci.value)); }
      if p.e164.Some? { e164Match := conversations.Get(E164Value(p.e164.value)); }
      if p.pni.Some? { pniMatch := conversations.Get(PniValue(p.pni.value)); }
      ms := Matches(aciMatch, e164Match, pniMatch);
    }

    method MaybeMergeContacts(p: Provided, newId: string)
      returns (r: Result<(ConversationModel, seq<(ConversationModel, ConversationModel)>), string>,
               ghost ms: Matches<ConversationModel>, ghost spare: ConversationModel)
      requires Valid()
      modifies conversations, conversations.models
      ensures Valid()
      ensures !SomethingProvided(p) ==> r.Err? && View() == old(View())
      ensures SomethingProvided(p) ==> r.Ok? && Merged(old(View()), p, ms, spare, r.value.0, r.value.1)
    {
      // The object getOrCreate would make; it joins the collection only if needed.
      var made := new ConversationModel(newId);
      spare := made;
      ms := Matches(None, None, None);
      if p.aci.None? && p.e164.None? && p.pni.None? {
        return Err("Need to provide at least one of: aci, e164, pni"), ms, spare;
      }
      hide Unique;
      ghost var before := View();
      var matches := FindMatches(p);
      ms := matches;

      var targetConversation, merges := MergeMatches(before, p, matches, made);
      if targetConversation.Some? {
        return Ok((targetConversation.value, merges)), ms, spare;
      }
      UniqueWhenCreated(before, p, matches, made);
      CreateFromAll(p, made);
      return Ok((made, merges)), ms, spare;
    }

    /** The loop over the three matches. */
    method MergeMatches(ghost before: map<ConversationModel, Identity>, p: Provided,
                        matches: Matches<ConversationModel>, spare: ConversationModel)
      returns (targetConversation: Option<ConversationModel>, merges: seq<(ConversationModel, ConversationModel)>)
      requires Valid() && View() == before && AreMatches(before, p, matches)
      requires spare !in conversations.models && spare.Ids() == NOBODY
      modifies conversations, conversations.models, spare
      ensures Valid()
      ensures var s := AfterTurns(before, p, matches, spare, 3);
              s.convs == View() && s.target == targetConversation && s.merged == merges
      ensures targetConversation.None? ==> spare !in conversations.models && spare.Ids() == NOBODY
      ensures targetConversation.None? ==> conversations.models == old(conversations.models)
    {
      targetConversation := None;
      merges := [];
      var unusedMatches: seq<Value> := [];
      for n := 0 to 3
        invariant Valid()
        invariant AfterTurns(before, p, matches, spare, n) == Merge(View(), targetConversation, unusedMatches, merges)
        invariant targetConversation.None? ==> spare !in conversations.models && spare.Ids() == NOBODY
        invariant targetConversation.None? ==> conversations.models == old(conversations.models)
        invariant conversations.models == old(conversations.models) || conversations.models == old(conversations.models) + [spare]
      {
        if ValueAt(p, n).Some? {
          targetConversation, unusedMatches, merges :=
            MergeTurn(before, p, matches, n, targetConversation, unusedMatches, merges, spare);
        }
      }
    }

    /** One turn of the loop, for an identifier that was provided. */
    method MergeTurn(ghost before: map<ConversationModel, Identity>, p: Provided, matches: Matches<ConversationModel>,
                     n: nat, target: Option<ConversationModel>, unused: seq<Value>,
                     merges: seq<(ConversationModel, ConversationModel)>, spare: ConversationModel)
      returns (target': Option<ConversationModel>, unused': seq<Value>,
               merges': seq<(ConversationModel, ConversationModel)>)
      requires n < 3 && spare !in before && AreMatches(before, p, matches) && ValueAt(p, n).Some?
      requires Unique(before)
      requires Valid() && AfterTurns(before, p, matches, spare, n) == Merge(View(), target, unused, merges)
      requires target.None? ==> spare !in conversations.models && spare.Ids() == NOBODY
      modifies conversations, conversations.models, spare
      ensures Valid()
      ensures AfterTurns(before, p, matches, spare, n + 1) == Merge(View(), target', unused', merges')
      ensures target'.None? ==> spare !in conversations.models && spare.Ids() == NOBODY
      ensures target.Some? ==> conversations.models == old(conversations.models)
      ensures conversations.models == old(conversations.models) || conversations.models == old(conversations.models) + [spare]
    {
      var value, found := ValueAt(p, n).value, MatchAt(matches, n);
      if found.Some? {
        OnlyTheMatchHolds(before, p, matches, spare, n, found.value);
        UnusedAreUnheld(before, p, matches, spare, n);
        ghost var s := AfterTurns(before, p, matches, spare, n);
        ghost var placed := PlaceAllUnused(s, found.value, unused, p.pni, spare);
        var next, willMerge := MatchedTurn(found.value, value, p.pni, target, unused, spare, s, placed);
        TakingIgnoresUnused(placed, value, found.value, p.pni);
        target', unused', merges' := Some(next), [], merges + (if willMerge then [(next, found.value)] else []);
      } else {
        UnheldWithoutMatch(before, p, matches, spare, n);
        target', unused', merges' := target, unused, merges;
        if target.Some? {
          Give(target.value, value);
        } else {
          unused' := unused + [value];
        }
      }
    }

    /** A turn whose identifier has the match `c`; `placed` is what placing the
        unused identifiers leads to. */
    method MatchedTurn(c: ConversationModel, v: Value, pni: Option<string>,
                       target: Option<ConversationModel>, unused: seq<Value>,
                       spare: ConversationModel,
                       ghost s: Merge<ConversationModel>, ghost placed: Merge<ConversationModel>)
      returns (next: ConversationModel, willMerge: bool)
      requires s.convs == View() && s.target == target
      requires Valid() && c in conversations.models && (target.Some? ==> target.value in conversations.models)
      requires target.None? ==> spare !in conversations.models && spare.Ids() == NOBODY
      requires NoDuplicates(unused) && (v.PniValue? ==> pni == Some(v.id))
      requires forall j, d :: 0 <= j < |unused| && d in View() ==> !Holds(View()[d], unused[j])
      requires placed == PlaceAllUnused(s, c, unused, pni, spare)
      requires forall d :: d in placed.convs && d != c ==> !Holds(placed.convs[d], v)
      modifies conversations, conversations.models, spare
      ensures Valid()
      ensures c in placed.convs && (placed.target.Some? ==> placed.target.value in placed.convs)
      ensures View() == TakeFromMatch(placed, v, c, pni).convs
      ensures Some(next) == TakeFromMatch(placed, v, c, pni).target
      ensures TakeFromMatch(placed, v, c, pni).merged == s.merged + (if willMerge then [(next, c)] else [])
      ensures target.Some? ==> conversations.models == old(conversations.models)
      ensures conversations.models == old(conversations.models) || conversations.models == old(conversations.models) + [spare]
    {
      hide TakeFromMatch, PlaceAllUnused, Unique;
      var holder := PlaceUnusedMatches(c, target, unused, pni, spare, s);
      next, willMerge := TakeFrom(c, holder, v, pni, placed);
    }

    /** Without any match, a conversation with all the inputs is created. */
    method CreateFromAll(p: Provided, spare: ConversationModel)
      requires Valid() && spare !in conversations.models && spare.Ids() == NOBODY
      requires Unique(CreateIfNoTarget(Merge(View(), None, [], []), p, spare).convs)
      modifies conversations, spare
      ensures Valid() && View() == CreateIfNoTarget(Merge(old(View()), None, [], []), p, spare).convs
      ensures conversations.models == old(conversations.models) + [spare]
    {
      ghost var y := CreateIfNoTarget(Merge(View(), None, [], []), p, spare).convs[spare];
      Lookups.UniqueMeansCanBecome(View(), spare, y);
      spare.serviceId := if p.aci.Some? then Some(Aci(p.aci.value)) else AsServiceId(p.pni);
      spare.e164 := p.e164;
      spare.pni := p.pni;
      assert View() == old(View());
      conversations.Add(spare);
    }
  }
}
