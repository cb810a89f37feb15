/** `#doCombineConversations` and the group part of `#doCheckForConflicts`, on
    conversation objects. */
module ConversationCombiners {
  import opened Common
  import opened Combining
  import opened GroupConflicts

  class Conversation {
    const kind: Kind
    var activeAt: Option<nat>
    var expireTimerVersion: Option<nat>
    var expireTimer: Option<nat>
    var data: map<string, string>

    ghost function Attributes(): Attributes
      reads this
    {
      Combining.Attributes(kind, activeAt, expireTimerVersion, expireTimer, data)
    }

    constructor (kind: Kind)
      ensures this.kind == kind
    {
      this.kind := kind;
      activeAt, expireTimerVersion, expireTimer, data := None, None, None, map[];
    }
  }

  class ConversationCombiner {
    var models: seq<Conversation>
    var messages: map<string, Conversation>
    ghost const known: set<Conversation>   // in the collection, or removed from it

    ghost function World(): World<Conversation>
      reads this, known
    {
      Combining.World(map c | c in known :: c.Attributes(), models, messages)
    }

    ghost predicate Valid()
      reads this
    {
      NoDuplicates(models) && forall c :: c in models ==> c in known
    }

    method DoCombineConversations(current: Conversation, obsolete: Conversation)
      requires Valid() && current in known && obsolete in known
      modifies this, current, obsolete
      ensures Valid() && World() == Combine(old(World()), current, obsolete)
    {
      ghost var w := World();
      if obsolete !in models {
        return;
      }
      if obsolete.kind.Private? != current.kind.Private? {
        return;
      }
      CombineKeepsKnown(w, current, obsolete);
      assert Combine(w, current, obsolete).models == Without(models, obsolete);
      hide Without, Moved, Survivor, Obsoleted;
      CombineAttributes(current, obsolete);
      MigrateMessages(obsolete, current);
      Remove(obsolete);
      assert World().attributes == Combine(w, current, obsolete).attributes;
    }

    method CombineAttributes(current: Conversation, obsolete: Conversation)
      modifies current, obsolete
      ensures current.Attributes() == Survivor(old(current.Attributes()), old(obsolete.Attributes()))
      ensures obsolete != current ==>
                obsolete.Attributes() == Obsoleted(old(current.Attributes()), old(obsolete.Attributes()))
    {
      if NonZero(obsolete.activeAt) && NonZero(current.activeAt) {
        current.activeAt := Some(Max(obsolete.activeAt.value, current.activeAt.value));
      } else if NonZero(obsolete.activeAt) {
        current.activeAt := obsolete.activeAt;
      }
      current.expireTimerVersion := Some(Max(Version(obsolete.expireTimerVersion), Version(current.expireTimerVersion)));
      if !NonZero(current.expireTimer)
         || (NonZero(obsolete.expireTimer) && obsolete.expireTimer.value < current.expireTimer.value) {
        current.expireTimer := obsolete.expireTimer;
      }
      CopyData(current, obsolete);
    }

    /** The loop over the keys of `dataToCopy`. */
    method CopyData(current: Conversation, obsolete: Conversation)
      modifies current`data, obsolete`data
      ensures current.data == old(obsolete.data) + old(current.data)
      ensures obsolete != current ==>
                obsolete.data == if DRAFT_ATTACHMENTS in old(current.data) then old(obsolete.data)
                                 else old(obsolete.data) - {DRAFT_ATTACHMENTS}
    {
      var dataToCopy := obsolete.data;
      var keys := dataToCopy.Keys;
      while keys != {}
        invariant keys <= dataToCopy.Keys
        invariant forall key :: key in current.data <==> key in old(current.data) || key in dataToCopy.Keys - keys
        invariant forall key :: key in current.data ==>
                                  current.data[key] == if key in old(current.data) then old(current.data)[key] else dataToCopy[key]
        invariant obsolete != current ==>
                    obsolete.data == if DRAFT_ATTACHMENTS !in old(current.data) && DRAFT_ATTACHMENTS in dataToCopy.Keys - keys
                                     then dataToCopy - {DRAFT_ATTACHMENTS} else dataToCopy
      {
        var key :| key in keys;
        if key !in current.data {
          current.data := current.data[key := dataToCopy[key]];
          if key == DRAFT_ATTACHMENTS {
            obsolete.data := obsolete.data - {key};
          }
        }
        keys := keys - {key};
      }
    }

    method MigrateMessages(obsolete: Conversation, current: Conversation)
      modifies this`messages
      ensures messages == Moved(old(messages), obsolete, current)
    {
      messages := map m | m in messages :: if messages[m] == obsolete then current else messages[m];
    }

    method Remove(c: Conversation)
      requires NoDuplicates(models) && c in models
      modifies this`models
      ensures models == Without(old(models), c)
    {
      var i := 0;
      while models[i] != c
        invariant i < |models| && c !in models[..i]
        decreases |models| - i
      {
        i := i + 1;
      }
      WithoutIsSplice(models, c, i);
      models := models[..i] + models[i + 1..];
    }

    ghost function Kinds(): map<Conversation, Kind>
      reads this
    {
      map c | c in known :: c.kind
    }

    /** The combines made so far lead from `w` to the present state. */
    ghost predicate ReachedBy(w: World<Conversation>, calls: seq<Call<Conversation>>)
      reads this, known
    {
      && Valid() && KnownCalls(w, calls) && KeepsPresent(w, calls) && WithinGroups(Kinds(), calls)
      && World() == After(w, calls)
    }

    /** The loop of `#doCheckForConflicts`, from the last conversation to the
        first; `calls` are the combines it makes.  Combining splices `models`,
        at the loop's position or behind it. */
    method CheckForConflicts() returns (ghost calls: seq<Call<Conversation>>)
      requires Valid()
      modifies this, known
      ensures Valid() && Resolves(old(World()), calls, World())
    {
      ghost var w := World();
      ghost var initial := models;
      calls := [];
      var byGroupV2Id: map<string, Conversation> := map[];
      var i: nat := |models|;
      NothingVisited(Kinds(), initial);
      assert ReachedBy(w, calls) && Kinds() == KindsOf(w);
      hide Visited, NextVisit, ReachedBy, Survivors, ById, AllKnown;
      while i > 0
        invariant ReachedBy(w, calls) && Visited(Kinds(), initial, i, models, byGroupV2Id)
      {
        i := i - 1;
        byGroupV2Id, calls := VisitNext(w, calls, initial, i, byGroupV2Id);
      }
      AllVisited(Kinds(), initial, models, byGroupV2Id);
      ReachedMeansResolved(w, calls);
    }

    lemma ReachedMeansResolved(w: World<Conversation>, calls: seq<Call<Conversation>>)
      requires Known(w) && AllKnown(Kinds(), w.models) && Kinds() == KindsOf(w)
      requires ReachedBy(w, calls) && models == Survivors(Kinds(), w.models)
      ensures Valid() && Resolves(w, calls, World())
    {
      hide Survivors;
    }

    method VisitNext(ghost w: World<Conversation>, ghost calls: seq<Call<Conversation>>,
                     ghost initial: seq<Conversation>, i: nat, byId: map<string, Conversation>)
      returns (byId': map<string, Conversation>, ghost calls': seq<Call<Conversation>>)
      requires ReachedBy(w, calls) && Visited(Kinds(), initial, i + 1, models, byId)
      modifies this, known
      ensures ReachedBy(w, calls') && Visited(Kinds(), initial, i, models, byId')
    {
      BeforeVisit(Kinds(), initial, i, models, byId);
      hide NextVisit, ReachedBy, Survivors, ById;
      byId', calls' := VisitConversation(w, calls, initial[..i], i, initial[i + 1..], byId);
      AfterVisit(Kinds(), initial, i, models, byId');
    }

    /** The conversation at position `i`. */
    method VisitConversation(ghost w: World<Conversation>, ghost calls: seq<Call<Conversation>>,
                             ghost front: seq<Conversation>, i: nat, ghost rest: seq<Conversation>,
                             byId: map<string, Conversation>)
      returns (byId': map<string, Conversation>, ghost calls': seq<Call<Conversation>>)
      requires ReachedBy(w, calls) && i == |front| && i < |models|
      requires NextVisit(Kinds(), front, models[i], rest, byId)
      requires models == front + [models[i]] + Survivors(Kinds(), rest)
      modifies this, known
      ensures ReachedBy(w, calls')
      ensures var c := old(models)[i];
              && AllKnown(Kinds(), [c] + rest)
              && models == front + Survivors(Kinds(), [c] + rest) && ById(Kinds(), [c] + rest, byId')
    {
      hide ReachedBy, Survivors, ById, Without, AllKnown;
      var conversation := models[i];
      byId', calls' := byId, calls;
      var groupV2Id := GroupId(conversation.kind);
      if groupV2Id.Some? {
        if groupV2Id.value !in byId {
          byId' := byId[groupV2Id.value := conversation];
        } else {
          var preferred;
          preferred, calls' := ResolveConflict(w, calls, conversation, byId[groupV2Id.value]);
          if preferred {
            byId' := byId[groupV2Id.value := conversation];
          }
        }
      }
    }

    /** Prefer the GV2 group, and else the one met first. */
    method ResolveConflict(ghost w: World<Conversation>, ghost calls: seq<Call<Conversation>>,
                           conversation: Conversation, existing: Conversation)
      returns (preferred: bool, ghost calls': seq<Call<Conversation>>)
      requires ReachedBy(w, calls) && conversation in models && existing in models && conversation != existing
      requires GroupId(conversation.kind).Some? && GroupId(conversation.kind) == GroupId(existing.kind)
      modifies this, known
      ensures ReachedBy(w, calls') && preferred == (conversation.kind.GroupV2? && !existing.kind.GroupV2?)
      ensures preferred ==> models == Without(old(models), existing)
      ensures !preferred ==> models == Without(old(models), conversation)
    {
      hide ReachedBy, Without;
      preferred := conversation.kind.GroupV2? && !existing.kind.GroupV2?;
      if preferred {
        calls' := CombineInGroup(w, calls, conversation, existing);
      } else {
        calls' := CombineInGroup(w, calls, existing, conversation);
      }
    }

    method CombineInGroup(ghost w: World<Conversation>, ghost calls: seq<Call<Conversation>>,
                          current: Conversation, obsolete: Conversation)
      returns (ghost calls': seq<Call<Conversation>>)
      requires ReachedBy(w, calls) && current in models && obsolete in models && current != obsolete
      requires GroupId(current.kind).Some? && GroupId(current.kind) == GroupId(obsolete.kind)
      modifies this, known
      ensures ReachedBy(w, calls') && models == Without(old(models), obsolete)
    {
      AfterOneMore(w, calls, (current, obsolete));
      DoCombineConversations(current, obsolete);
      calls' := calls + [(current, obsolete)];
    }
  }
}
