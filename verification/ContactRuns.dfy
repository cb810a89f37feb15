/** Contacts over time: identifiers are resolved as they come in, each call
    queues the combines it asks for, and the queue runs them one by one later. */
module ContactRuns {
  import opened Common
  import opened ContactIdentity
  import opened ContactOutcome
  import Combining

  datatype State<C> = State(
    convs: map<C, Identity>,
    world: Combining.World<C>,
    queue: seq<Combining.Call<C>>)

  /** `Resolve` is one call of `maybeMergeContacts`, `CombineNext` one turn of the
      queue, `Receive` the arrival of a message for a conversation in the
      collection. */
  datatype Event<C> =
    | Resolve(p: Provided, ms: Matches<C>, spare: C)
    | CombineNext
    | Receive(message: string, to: C)

  const NEW_CONTACT := Combining.Attributes(Combining.Private, None, None, None, map[])

  ghost predicate CanHappen<C>(s: State<C>, e: Event<C>) {
    match e
    case Resolve(p, ms, spare) =>
      SomethingProvided(p) && AreMatches(s.convs, p, ms) && spare !in s.world.attributes
    case CombineNext =>
      s.queue != [] && s.queue[0].0 in s.world.attributes && s.queue[0].1 in s.world.attributes
    case Receive(message, to) =>
      to in s.world.models && message !in s.world.messages
  }

  ghost function Step<C>(s: State<C>, e: Event<C>): State<C>
    requires CanHappen(s, e)
  {
    match e
    case Resolve(p, ms, spare) =>
      var r := MergeContacts(s.convs, p, ms, spare);
      State(r.convs, if spare in r.convs then Joined(s.world, spare) else s.world, s.queue + r.merged)
    case CombineNext =>
      var world := Combining.Combine(s.world, s.queue[0].0, s.queue[0].1);
      State(map c | c in s.convs && c in world.models :: s.convs[c], world, s.queue[1..])
    case Receive(message, to) =>
      s.(world := s.world.(messages := s.world.messages[message := to]))
  }

  function Joined<C(==)>(w: Combining.World<C>, c: C): Combining.World<C> {
    w.(models := w.models + [c], attributes := w.attributes[c := NEW_CONTACT])
  }

  ghost predicate Run<C>(s: State<C>, es: seq<Event<C>>)
    decreases |es|
  {
    es != [] ==> CanHappen(s, es[0]) && Run(Step(s, es[0]), es[1..])
  }

  ghost function After<C>(s: State<C>, es: seq<Event<C>>): State<C>
    requires Run(s, es)
    decreases |es|
  {
    if es == [] then s else After(Step(s, es[0]), es[1..])
  }

  // -------------------------------------------------------------- invariant

  /** The collection of contacts, as the two views of it. */
  ghost predicate Collection<C>(convs: map<C, Identity>, w: Combining.World<C>) {
    && Unique(convs)
    && Combining.Known(w) && Combining.MessagesLive(w)
    && (forall c :: c in w.models ==> c in convs)
    && (forall c :: c in convs ==> c in w.models)
    && (forall c :: c in w.attributes ==> w.attributes[c].kind.Private?)
  }

  /** A queued combine keeps a conversation of the collection, which no earlier
      one removes; the obsolete one has no identifiers. */
  ghost predicate QueueSafe<C>(convs: map<C, Identity>, w: Combining.World<C>, queue: seq<Combining.Call<C>>) {
    && (forall i :: 0 <= i < |queue| ==>
          && queue[i].0 in w.models && queue[i].1 in w.attributes && queue[i].0 != queue[i].1
          && (queue[i].1 in convs ==> convs[queue[i].1] == NOBODY))
    && (forall i, j :: 0 <= i < j < |queue| ==> queue[j].0 != queue[i].1)
  }

  ghost predicate Inv<C>(s: State<C>) {
    Collection(s.convs, s.world) && QueueSafe(s.convs, s.world, s.queue)
  }

  /** Contacts with an ACI are still there, with the same ACI. */
  ghost predicate AcisStay<C>(before: map<C, Identity>, after: map<C, Identity>) {
    forall c :: c in before && HasAci(before[c]) ==> c in after && after[c].serviceId == before[c].serviceId
  }

  lemma ResolveKeepsInv<C>(s: State<C>, e: Event<C>)
    requires Inv(s) && e.Resolve? && CanHappen(s, e)
    ensures Inv(Step(s, e))
    ensures AcisStay(s.convs, Step(s, e).convs)
    ensures AllWellFormed(s.convs) ==> AllWellFormed(Step(s, e).convs)
  {
    var r := MergeContacts(s.convs, e.p, e.ms, e.spare);
    var t := Step(s, e);
    assert e.spare !in s.convs;
    MergeContactsIsRight(s.convs, e.p, e.ms, e.spare);
    if AllWellFormed(s.convs) {
      MergeContactsKeepsWellFormed(s.convs, e.p, e.ms, e.spare);
    }
    MatchesHoldSomething(s.convs, e.p, e.ms);
    JoinedCollection(s, r.convs, e.spare);
    QueueGrows(s, e, r);
  }

  lemma MatchesHoldSomething<C>(convs: map<C, Identity>, p: Provided, ms: Matches<C>)
    requires AreMatches(convs, p, ms)
    ensures forall c :: MatchedBefore(ms, 3, c) ==> c in convs && convs[c] != NOBODY
  {
  }

  lemma JoinedCollection<C>(s: State<C>, convs: map<C, Identity>, spare: C)
    requires Collection(s.convs, s.world) && spare !in s.world.attributes
    requires Unique(convs)
    requires s.convs.Keys <= convs.Keys <= s.convs.Keys + {spare}
    ensures Collection(convs, if spare in convs then Joined(s.world, spare) else s.world)
  {
    if spare in convs {
      NoDuplicatesAppend(s.world.models, spare);
    }
    assert forall c :: c in convs ==> c in convs.Keys;
  }

  lemma QueueGrows<C>(s: State<C>, e: Event<C>, r: Merge<C>)
    requires Inv(s) && e.Resolve? && CanHappen(s, e)
    requires r.target.Some? && r.target.value in r.convs
    requires s.convs.Keys <= r.convs.Keys <= s.convs.Keys + {e.spare}
    requires r.target == Some(e.spare) || MatchedBefore(e.ms, 3, r.target.value)
    requires forall c :: MatchedBefore(e.ms, 3, c) ==> c in s.convs && s.convs[c] != NOBODY
    requires MergedRight(s.convs, e.ms, 3, r) && OthersUntouched(s.convs, e.ms, 3, r)
    ensures QueueSafe(r.convs, if e.spare in r.convs then Joined(s.world, e.spare) else s.world, s.queue + r.merged)
  {
    var q := s.queue + r.merged;
    var w := if e.spare in r.convs then Joined(s.world, e.spare) else s.world;
    forall i | 0 <= i < |s.queue|
      ensures Some(s.queue[i].1) != r.target
      ensures s.queue[i].1 in r.convs ==> r.convs[s.queue[i].1] == NOBODY
    {
      assert s.queue[i].1 in s.world.attributes;
    }
    forall i | 0 <= i < |r.merged|
      ensures r.merged[i].0 in w.models && r.merged[i].1 in w.attributes
      ensures Some(r.merged[i].0) == r.target && r.merged[i].1 != r.merged[i].0
      ensures r.convs[r.merged[i].1] == NOBODY
    {
      var (t, c) := r.merged[i];
      assert Some(t) == r.target && c in s.convs;
    }
    assert forall i :: |s.queue| <= i < |q| ==> q[i] == r.merged[i - |s.queue|];
  }

  lemma CombineNextKeepsInv<C>(s: State<C>)
    requires Inv(s) && CanHappen(s, CombineNext)
    ensures Inv(Step(s, CombineNext))
    ensures AcisStay(s.convs, Step(s, CombineNext).convs)
    ensures AllWellFormed(s.convs) ==> AllWellFormed(Step(s, CombineNext).convs)
    ensures Step(s, CombineNext).world.messages.Keys == s.world.messages.Keys
  {
    var (current, obsolete) := s.queue[0];
    var t := Step(s, CombineNext);
    Combining.OneCall(s.world, s.queue[0]);
    Combining.KindsKept(s.world, s.queue[0]);
    Combining.WithoutMembers(s.world.models, obsolete);
    assert forall c :: c in t.world.attributes.Keys ==> c in s.world.attributes;
    assert forall i :: 0 <= i < |t.queue| ==> t.queue[i] == s.queue[i + 1];
    forall c | c in s.world.models && c != obsolete
      ensures c in t.world.models
    {
    }
    forall i | 0 <= i < |t.queue|
      ensures t.queue[i].0 in t.world.models && t.queue[i].1 in t.world.attributes.Keys
    {
      assert s.queue[i + 1].0 != s.queue[0].1;
    }
  }

  lemma StepKeepsInv<C>(s: State<C>, e: Event<C>)
    requires Inv(s) && CanHappen(s, e)
    ensures Inv(Step(s, e))
    ensures s.world.messages.Keys <= Step(s, e).world.messages.Keys
    ensures AcisStay(s.convs, Step(s, e).convs)
    ensures AllWellFormed(s.convs) ==> AllWellFormed(Step(s, e).convs)
  {
    match e {
      case Resolve(_, _, _) => ResolveKeepsInv(s, e);
      case CombineNext => CombineNextKeepsInv(s);
      case Receive(_, _) => assert Step(s, e).convs == s.convs;
    }
  }

  /** Over any run: contacts stay unique, and well formed if they were, no message
      belongs to a removed contact or is lost, and a contact with an ACI is never
      removed. */
  lemma {:induction false} EveryRunKeepsInv<C>(s: State<C>, es: seq<Event<C>>)
    requires Inv(s) && Run(s, es)
    ensures var t := After(s, es);
            && Inv(t) && AcisStay(s.convs, t.convs) && s.world.messages.Keys <= t.world.messages.Keys
            && (AllWellFormed(s.convs) ==> AllWellFormed(t.convs))
    decreases |es|
  {
    if es != [] {
      StepKeepsInv(s, es[0]);
      EveryRunKeepsInv(Step(s, es[0]), es[1..]);
    }
  }

  /** A queued combine can always be made, and a message always arrive. */
  lemma QueueCanGoOn<C>(s: State<C>, message: string, to: C)
    requires Inv(s)
    ensures s.queue != [] ==> CanHappen(s, CombineNext)
    ensures to in s.world.models && message !in s.world.messages ==>
              CanHappen(s, Receive(message, to)) && Step(s, Receive(message, to)).world.messages == s.world.messages[message := to]
  {
  }

  /** Whatever is in the queue can be carried out as it is: every combine keeps a
      conversation that is in the collection when its turn comes. */
  lemma {:induction false} QueueKeepsPresent<C>(w: Combining.World<C>, convs: map<C, Identity>, queue: seq<Combining.Call<C>>)
    requires Combining.Known(w) && QueueSafe(convs, w, queue)
    ensures Combining.KnownCalls(w, queue) && Combining.KeepsPresent(w, queue)
    decreases |queue|
  {
    assert forall c :: c in w.models ==> c in w.attributes;
    if queue != [] {
      var w1 := Combining.Combine(w, queue[0].0, queue[0].1);
      Combining.CombineKeepsKnown(w, queue[0].0, queue[0].1);
      Combining.WithoutMembers(w.models, queue[0].1);
      assert forall i :: 0 <= i < |queue| - 1 ==> queue[1..][i] == queue[i + 1];
      assert forall c :: c in w1.attributes.Keys <==> c in w.attributes.Keys;
      QueueKeepsPresent(w1, convs, queue[1..]);
    }
  }

  /** When the queue has drained, every message is with a contact still there:
      with the one its contact became part of. */
  lemma DrainedQueueGathersMessages<C>(start: State<C>, es: seq<Event<C>>)
    requires Inv(start) && Run(start, es)
    ensures var s := After(start, es);
            && Combining.KnownCalls(s.world, s.queue)
            && var w := Combining.After(s.world, s.queue);
            && Combining.MessagesLive(w) && w.messages.Keys == s.world.messages.Keys
            && forall m :: m in w.messages ==> w.messages[m] == Combining.Home(s.world, s.queue, s.world.messages[m])
  {
    EveryRunKeepsInv(start, es);
    var s := After(start, es);
    QueueKeepsPresent(s.world, s.convs, s.queue);
    Combining.CombinesConserveMessages(s.world, s.queue);
  }

  /** And just those contacts are gone that a queued combine was to dissolve. */
  lemma DrainedQueueDissolves<C>(start: State<C>, es: seq<Event<C>>)
    requires Inv(start) && Run(start, es)
    ensures var s := After(start, es);
            && Combining.KnownCalls(s.world, s.queue)
            && var left := Combining.After(s.world, s.queue).models;
            && (forall c :: c in left ==> c in s.world.models)
            && (forall k :: 0 <= k < |s.queue| ==> s.queue[k].1 !in left)
            && (forall c :: c in s.world.models && (forall k :: 0 <= k < |s.queue| ==> s.queue[k].1 != c) ==> c in left)
  {
    EveryRunKeepsInv(start, es);
    var s := After(start, es);
    QueueKeepsPresent(s.world, s.convs, s.queue);
    AllDissolved(s.world, s.queue);
  }

  lemma {:induction false} AllDissolved<C>(w: Combining.World<C>, queue: seq<Combining.Call<C>>)
    requires Combining.Known(w) && Combining.KnownCalls(w, queue) && Combining.KeepsPresent(w, queue)
    requires forall c :: c in w.attributes ==> w.attributes[c].kind == Combining.Private
    ensures var left := Combining.After(w, queue).models;
            && (forall c :: c in left ==> c in w.models)
            && (forall k :: 0 <= k < |queue| ==> queue[k].1 !in left)
            && (forall c :: c in w.models && (forall k :: 0 <= k < |queue| ==> queue[k].1 != c) ==> c in left)
    decreases |queue|
  {
    if queue != [] {
      var (current, obsolete) := queue[0];
      var w1 := Combining.Combine(w, current, obsolete);
      Combining.CombineExactly(w, current, obsolete);
      Combining.CombineKeepsKnown(w, current, obsolete);
      Combining.KindsKept(w, queue[0]);
      assert forall c :: c in w1.attributes.Keys ==> c in w.attributes;
      AllDissolved(w1, queue[1..]);
      assert forall k :: 0 < k < |queue| ==> queue[k] == queue[1..][k - 1];
    }
  }

  /** A contact without identifiers is about to be dissolved. */
  ghost predicate EmptyAreQueued<C>(s: State<C>) {
    forall c :: c in s.convs && s.convs[c] == NOBODY ==> exists k :: 0 <= k < |s.queue| && s.queue[k].1 == c
  }

  lemma EmptiedAreMerged<C>(convs: map<C, Identity>, p: Provided, ms: Matches<C>, spare: C)
    requires Unique(convs) && AreMatches(convs, p, ms) && spare !in convs && SomethingProvided(p)
    ensures var r := MergeContacts(convs, p, ms, spare);
            forall c :: c in r.convs && r.convs[c] == NOBODY ==>
                          c in convs && (convs[c] == NOBODY || exists k :: 0 <= k < |r.merged| && r.merged[k].1 == c)
  {
    MergeContactsIsRight(convs, p, ms, spare);
    MergeContactsExactly(convs, p, ms, spare);
    SparesAreSomebody(convs, p, ms, spare);
    hide MergeContacts, IsOutcome, Unique, AcisKept, AreMatches, OthersUntouched, Holds, PniLost;
  }

  lemma ResolveQueuesEmptied<C>(s: State<C>, e: Event<C>)
    requires Inv(s) && EmptyAreQueued(s) && e.Resolve? && CanHappen(s, e)
    ensures EmptyAreQueued(Step(s, e))
  {
    var r := MergeContacts(s.convs, e.p, e.ms, e.spare);
    var t := Step(s, e);
    assert e.spare !in s.convs;
    EmptiedAreMerged(s.convs, e.p, e.ms, e.spare);
    hide MergeContacts, Inv, AreMatches;
    forall c | c in t.convs && t.convs[c] == NOBODY
      ensures exists k :: 0 <= k < |t.queue| && t.queue[k].1 == c
    {
      if s.convs[c] == NOBODY {
        var k :| 0 <= k < |s.queue| && s.queue[k].1 == c;
        assert t.queue[k].1 == c;
      } else {
        var k :| 0 <= k < |r.merged| && r.merged[k].1 == c;
        assert t.queue[|s.queue| + k].1 == c;
      }
    }
  }

  lemma SparesAreSomebody<C>(convs: map<C, Identity>, p: Provided, ms: Matches<C>, spare: C)
    requires AreMatches(convs, p, ms) && spare !in convs && SomethingProvided(p)
    requires IsOutcome(convs, p, ms, spare, MergeContacts(convs, p, ms, spare))
    ensures var r := MergeContacts(convs, p, ms, spare);
            spare in r.convs ==> r.convs[spare] != NOBODY
  {
    MatchesAreThere(convs, p, ms);
    hide MergeContacts, AreMatches;
  }

  /** In every run contacts that have lost all their identifiers are queued, if they were
      at the start, so that none is left when the queue has drained. */
  lemma {:induction false} EmptiedAreDissolved<C>(s: State<C>, es: seq<Event<C>>)
    requires Inv(s) && EmptyAreQueued(s) && Run(s, es)
    ensures EmptyAreQueued(After(s, es))
    decreases |es|
  {
    if es != [] {
      StepKeepsInv(s, es[0]);
      if es[0].Resolve? {
        ResolveQueuesEmptied(s, es[0]);
      } else if es[0].CombineNext? {
        NextKeepsQueued(s);
      }
      hide Inv, Step;
      EmptiedAreDissolved(Step(s, es[0]), es[1..]);
    }
  }

  lemma NextKeepsQueued<C>(s: State<C>)
    requires Inv(s) && EmptyAreQueued(s) && CanHappen(s, CombineNext)
    ensures EmptyAreQueued(Step(s, CombineNext))
  {
    var t := Step(s, CombineNext);
    Combining.CombineExactly(s.world, s.queue[0].0, s.queue[0].1);
    forall c | c in t.convs && t.convs[c] == NOBODY
      ensures exists k :: 0 <= k < |t.queue| && t.queue[k].1 == c
    {
      var k :| 0 <= k < |s.queue| && s.queue[k].1 == c;
      assert k > 0 ==> t.queue[k - 1].1 == c;
    }
  }
}
