/** Which of the conversations of one group stays, when all conflicts between
    groups are resolved. */
module GroupConflicts {
  import opened Common
  import opened Combining

  /** The group V2 id of a group: its own, or the one derived from its V1 id. */
  function GroupId(k: Kind): Option<string> {
    match k
    case GroupV1(derivedId) => Some(derivedId)
    case GroupV2(groupId) => Some(groupId)
    case _ => None
  }

  ghost predicate AllKnown<C>(kinds: map<C, Kind>, s: seq<C>) {
    forall c :: c in s ==> c in kinds
  }

  /** Position `k` of `s` stays: it is no group, or it is preferred to every other
      conversation of its group.  V2 groups come before V1 groups, later ones
      before earlier ones. */
  ghost predicate Wins<C>(kinds: map<C, Kind>, s: seq<C>, k: nat)
    requires AllKnown(kinds, s) && k < |s|
  {
    GroupId(kinds[s[k]]).Some? ==>
      forall j :: 0 <= j < |s| && j != k && GroupId(kinds[s[j]]) == GroupId(kinds[s[k]]) ==>
        if kinds[s[j]].GroupV2? == kinds[s[k]].GroupV2? then j < k else kinds[s[k]].GroupV2?
  }

  ghost function Winners<C>(kinds: map<C, Kind>, s: seq<C>): set<C>
    requires AllKnown(kinds, s)
  {
    set k | 0 <= k < |s| && Wins(kinds, s, k) :: s[k]
  }

  ghost function Keep<C>(s: seq<C>, kept: set<C>): seq<C> {
    if s == [] then []
    else (if s[0] in kept then [s[0]] else []) + Keep(s[1..], kept)
  }

  /** The conversations that stay, in their order. */
  ghost function Survivors<C>(kinds: map<C, Kind>, s: seq<C>): seq<C>
    requires AllKnown(kinds, s)
  {
    Keep(s, Winners(kinds, s))
  }

  // ------------------------------------------------------------- filtering

  lemma {:induction false} KeepMembers<C>(s: seq<C>, kept: set<C>)
    ensures forall x :: x in Keep(s, kept) ==> x in s && x in kept
    ensures forall x :: x in s && x in kept ==> x in Keep(s, kept)
    ensures NoDuplicates(s) ==> NoDuplicates(Keep(s, kept))
  {
    if s != [] {
      KeepMembers(s[1..], kept);
      assert s == [s[0]] + s[1..];
      if NoDuplicates(s) {
        assert s[0] !in s[1..];
      }
    }
  }

  lemma {:induction false} KeepSame<C>(s: seq<C>, kept: set<C>, also: set<C>)
    requires forall x :: x in s ==> (x in kept <==> x in also)
    ensures Keep(s, kept) == Keep(s, also)
  {
    if s != [] {
      KeepSame(s[1..], kept, also);
    }
  }

  lemma {:induction false} KeepWithout<C>(s: seq<C>, kept: set<C>, c: C)
    ensures Keep(s, kept - {c}) == Without(Keep(s, kept), c)
  {
    if s != [] {
      KeepWithout(s[1..], kept, c);
      var all, rest := Keep(s, kept), Keep(s[1..], kept);
      if s[0] in kept {
        assert all[0] == s[0] && all[1..] == rest;
      } else {
        assert all == rest;
      }
      var fewer := kept - {c};
      assert Keep(s, fewer) == (if s[0] in fewer then [s[0]] else []) + Keep(s[1..], fewer);
    }
  }

  // ------------------------------------------ one more conversation in front

  /** The winner found so far for each group id. */
  ghost predicate ById<C>(kinds: map<C, Kind>, s: seq<C>, byId: map<string, C>)
    requires AllKnown(kinds, s)
  {
    && (forall g :: g in byId ==> byId[g] in Winners(kinds, s) && byId[g] in kinds && GroupId(kinds[byId[g]]) == Some(g))
    && (forall c :: c in s && GroupId(kinds[c]).Some? ==> GroupId(kinds[c]).value in byId)
  }

  /** What the conversation `c`, met in front of `rest`, does to the winners. */
  lemma WinnersWithOneMore<C>(kinds: map<C, Kind>, c: C, rest: seq<C>, byId: map<string, C>)
    requires c in kinds && c !in rest && AllKnown(kinds, rest) && NoDuplicates(rest) && ById(kinds, rest, byId)
    ensures AllKnown(kinds, [c] + rest)
    ensures var g := GroupId(kinds[c]);
            Winners(kinds, [c] + rest) ==
              if g.None? || g.value !in byId then {c} + Winners(kinds, rest)
              else if kinds[c].GroupV2? && !kinds[byId[g.value]].GroupV2? then {c} + Winners(kinds, rest) - {byId[g.value]}
              else Winners(kinds, rest)
  {
    var s := [c] + rest;
    var g := GroupId(kinds[c]);
    FrontWins(kinds, c, rest, byId);
    WinnersInFront(kinds, c, rest);
    if g.Some? && g.value in byId {
      WinnerIsOne(kinds, rest, g.value);
    }
    hide Wins;
    forall x | x in Winners(kinds, rest)
      ensures Overtakes(kinds[c], kinds[x]) <==>
                g.Some? && g.value in byId && x == byId[g.value] && kinds[c].GroupV2? && !kinds[x].GroupV2?
    {
    }
  }

  lemma WinnersInFront<C>(kinds: map<C, Kind>, c: C, rest: seq<C>)
    requires c in kinds && c !in rest && AllKnown(kinds, rest) && NoDuplicates(rest)
    ensures AllKnown(kinds, [c] + rest)
    ensures Winners(kinds, [c] + rest) ==
            (if Wins(kinds, [c] + rest, 0) then {c} else {})
            + (set x | x in Winners(kinds, rest) && !Overtakes(kinds[c], kinds[x]))
  {
    var s := [c] + rest;
    assert s[0] == c;
    forall k | 0 < k < |s|
      ensures s[k] == rest[k - 1] && s[k] != c
    {
    }
    forall x | x in rest
      ensures x in Winners(kinds, s) <==> x in Winners(kinds, rest) && !Overtakes(kinds[c], kinds[x])
    {
      LaterWinner(kinds, c, rest, x);
    }
    hide Wins;
    assert c in Winners(kinds, s) <==> Wins(kinds, s, 0);
  }

  lemma LaterWinner<C>(kinds: map<C, Kind>, c: C, rest: seq<C>, x: C)
    requires c in kinds && c !in rest && AllKnown(kinds, rest) && NoDuplicates(rest) && AllKnown(kinds, [c] + rest)
    requires x in rest
    ensures x in Winners(kinds, [c] + rest) <==> x in Winners(kinds, rest) && !Overtakes(kinds[c], kinds[x])
  {
    var k: nat :| k < |rest| && rest[k] == x;
    var s := [c] + rest;
    LaterWins(kinds, c, rest, k);
    hide Wins;
    assert s[k + 1] == x;
    assert forall j :: 0 <= j < |s| && s[j] == x ==> j == k + 1;
    assert forall j :: 0 <= j < |rest| && rest[j] == x ==> j == k;
  }

  /** A V2 group met later replaces the V1 group kept so far. */
  predicate Overtakes(k: Kind, kept: Kind) {
    k.GroupV2? && kept.GroupV1? && GroupId(k) == GroupId(kept)
  }

  lemma LaterWins<C>(kinds: map<C, Kind>, c: C, rest: seq<C>, k: nat)
    requires c in kinds && AllKnown(kinds, rest) && AllKnown(kinds, [c] + rest)
    requires k < |rest|
    ensures Wins(kinds, [c] + rest, k + 1) <==> Wins(kinds, rest, k) && !Overtakes(kinds[c], kinds[rest[k]])
  {
    var s := [c] + rest;
    assert forall j: nat :: j < |rest| ==> s[j + 1] == rest[j];
    if Wins(kinds, s, k + 1) && GroupId(kinds[rest[k]]).Some? {
      assert s[0] == c && GroupId(kinds[s[0]]) == GroupId(kinds[c]);
      forall j | 0 <= j < |rest| && j != k && GroupId(kinds[rest[j]]) == GroupId(kinds[rest[k]])
        ensures if kinds[rest[j]].GroupV2? == kinds[rest[k]].GroupV2? then j < k else kinds[rest[k]].GroupV2?
      {
        assert s[j + 1] == rest[j] && s[k + 1] == rest[k];
      }
    }
  }

  lemma FrontWins<C>(kinds: map<C, Kind>, c: C, rest: seq<C>, byId: map<string, C>)
    requires c in kinds && c !in rest && AllKnown(kinds, rest) && ById(kinds, rest, byId)
    requires AllKnown(kinds, [c] + rest)
    ensures var g := GroupId(kinds[c]);
            Wins(kinds, [c] + rest, 0) <==>
              g.None? || g.value !in byId || (kinds[c].GroupV2? && !kinds[byId[g.value]].GroupV2?)
  {
    var s := [c] + rest;
    var g := GroupId(kinds[c]);
    if g.Some? && g.value in byId {
      var k: nat :| k < |rest| && Wins(kinds, rest, k) && rest[k] == byId[g.value];
      assert s[k + 1] == rest[k];
      forall j | 0 < j < |s| && GroupId(kinds[s[j]]) == g && kinds[s[j]].GroupV2?
        ensures kinds[rest[k]].GroupV2?
      {
        assert s[j] == rest[j - 1];
      }
    }
  }

  /** No group has two winners. */
  lemma WinnerIsOne<C>(kinds: map<C, Kind>, s: seq<C>, g: string)
    requires AllKnown(kinds, s)
    ensures forall i, j :: (0 <= i < |s| && 0 <= j < |s| && Wins(kinds, s, i) && Wins(kinds, s, j)
                            && GroupId(kinds[s[i]]) == Some(g) && GroupId(kinds[s[j]]) == Some(g)) ==> i == j
  {
  }

  lemma SurvivorsWithOneMore<C>(kinds: map<C, Kind>, c: C, rest: seq<C>, byId: map<string, C>)
    requires c in kinds && c !in rest && AllKnown(kinds, rest) && NoDuplicates(rest) && ById(kinds, rest, byId)
    ensures AllKnown(kinds, [c] + rest)
    ensures var g, before, s := GroupId(kinds[c]), Survivors(kinds, rest), Survivors(kinds, [c] + rest);
            if g.None? || g.value !in byId then s == [c] + before
            else if kinds[c].GroupV2? && !kinds[byId[g.value]].GroupV2? then s == [c] + Without(before, byId[g.value])
            else s == before
  {
    var s := [c] + rest;
    WinnersWithOneMore(kinds, c, rest, byId);
    var g, winners, now := GroupId(kinds[c]), Winners(kinds, rest), Winners(kinds, s);
    assert forall x :: x in winners ==> x in rest;
    hide Winners, ById;
    assert s[0] == c && s[1..] == rest;
    if g.Some? && g.value in byId && c in now {
      KeepSame(rest, now, winners - {byId[g.value]});
      KeepWithout(rest, winners, byId[g.value]);
    } else {
      KeepSame(rest, now, winners);
    }
  }

  /** Taking the conversation at the loop's position out of the array leaves the part
      still to be visited in place. */
  lemma SplicingHere<C>(front: seq<C>, c: C, s: seq<C>)
    requires c !in front && c !in s
    ensures Without(front + [c] + s, c) == front + s
  {
    assert Without([c], c) == [];
    hide Without;
    WithoutAbsent(front, c);
    WithoutConcat(front, [c], c);
    assert Without(front + [c], c) == front;
    WithoutAbsent(s, c);
    WithoutConcat(front + [c], s, c);
  }

  /** So does taking out one behind it. */
  lemma SplicingBehind<C>(front: seq<C>, c: C, s: seq<C>, e: C)
    requires e !in front && e != c
    ensures Without(front + [c] + s, e) == front + ([c] + Without(s, e))
  {
    hide Without;
    WithoutAbsent(front + [c], e);
    WithoutConcat(front + [c], s, e);
    assert front + [c] + Without(s, e) == front + ([c] + Without(s, e));
  }

  lemma FrontIsApart<C>(front: seq<C>, c: C, rest: seq<C>)
    requires NoDuplicates(front + ([c] + rest))
    ensures c !in front && c !in rest
    ensures forall e :: e in rest ==> e !in front
    ensures NoDuplicates(rest)
  {
    var all := front + ([c] + rest);
    assert forall k :: 0 <= k < |front| ==> all[k] == front[k];
    assert forall k :: 0 <= k < |rest| ==> all[|front| + 1 + k] == rest[k];
    assert all[|front|] == c;
  }

  lemma ExistingSurvives<C>(kinds: map<C, Kind>, rest: seq<C>, byId: map<string, C>, g: string)
    requires AllKnown(kinds, rest) && ById(kinds, rest, byId) && g in byId
    ensures byId[g] in rest && byId[g] in Survivors(kinds, rest)
    ensures byId[g] in kinds && GroupId(kinds[byId[g]]) == Some(g)
  {
    KeepMembers(rest, Winners(kinds, rest));
  }

  lemma ByIdWithOneMore<C>(kinds: map<C, Kind>, c: C, rest: seq<C>, byId: map<string, C>)
    requires c in kinds && c !in rest && AllKnown(kinds, rest) && NoDuplicates(rest) && ById(kinds, rest, byId)
    ensures AllKnown(kinds, [c] + rest)
    ensures var g := GroupId(kinds[c]);
            ById(kinds, [c] + rest,
                 if g.Some? && (g.value !in byId || (kinds[c].GroupV2? && !kinds[byId[g.value]].GroupV2?))
                 then byId[g.value := c] else byId)
  {
    WinnersWithOneMore(kinds, c, rest, byId);
    hide Winners;
  }

  /** What a visit of `c` has to do, between `front`, still to be visited, and the
      winners of `rest`: `byId` may change, or one of two conversations may go. */
  ghost predicate NextVisit<C>(kinds: map<C, Kind>, front: seq<C>, c: C, rest: seq<C>, byId: map<string, C>) {
    && c in kinds && AllKnown(kinds, rest) && AllKnown(kinds, [c] + rest)
    && var s, t, g := Survivors(kinds, rest), Survivors(kinds, [c] + rest), GroupId(kinds[c]);
    if g.None? then t == [c] + s && ById(kinds, [c] + rest, byId)
    else if g.value !in byId then t == [c] + s && ById(kinds, [c] + rest, byId[g.value := c])
    else
      var e := byId[g.value];
      && e in s && e != c && e in kinds && GroupId(kinds[e]) == g
      && if kinds[c].GroupV2? && !kinds[e].GroupV2?
         then Without(front + [c] + s, e) == front + t && ById(kinds, [c] + rest, byId[g.value := c])
         else Without(front + [c] + s, c) == front + t && ById(kinds, [c] + rest, byId)
  }

  lemma VisitingNext<C>(kinds: map<C, Kind>, front: seq<C>, c: C, rest: seq<C>, byId: map<string, C>)
    requires NoDuplicates(front + ([c] + rest)) && c in kinds && AllKnown(kinds, rest) && ById(kinds, rest, byId)
    ensures NextVisit(kinds, front, c, rest, byId)
  {
    FrontIsApart(front, c, rest);
    SurvivorsWithOneMore(kinds, c, rest, byId);
    ByIdWithOneMore(kinds, c, rest, byId);
    KeepMembers(rest, Winners(kinds, rest));
    var s := Survivors(kinds, rest);
    hide ById, Survivors, NoDuplicates, Without;
    SplicingHere(front, c, s);
    var g := GroupId(kinds[c]);
    if g.Some? && g.value in byId {
      ExistingSurvives(kinds, rest, byId, g.value);
      SplicingBehind(front, c, s, byId[g.value]);
    }
  }

  /** Where the loop over `initial` stands when positions from `i` on were visited:
      the part before is untouched, behind it are those that stay. */
  ghost predicate Visited<C>(kinds: map<C, Kind>, initial: seq<C>, i: nat, models: seq<C>, byId: map<string, C>) {
    && i <= |initial| && NoDuplicates(initial) && AllKnown(kinds, initial)
    && models == initial[..i] + Survivors(kinds, initial[i..])
    && ById(kinds, initial[i..], byId)
  }

  lemma NothingVisited<C>(kinds: map<C, Kind>, initial: seq<C>)
    requires NoDuplicates(initial) && AllKnown(kinds, initial)
    ensures Visited(kinds, initial, |initial|, initial, map[])
  {
    assert initial[|initial|..] == [] && initial[..|initial|] == initial;
  }

  lemma AllVisited<C>(kinds: map<C, Kind>, initial: seq<C>, models: seq<C>, byId: map<string, C>)
    requires Visited(kinds, initial, 0, models, byId)
    ensures AllKnown(kinds, initial) && models == Survivors(kinds, initial)
  {
    assert initial[0..] == initial;
  }

  lemma BeforeVisit<C>(kinds: map<C, Kind>, initial: seq<C>, i: nat, models: seq<C>, byId: map<string, C>)
    requires Visited(kinds, initial, i + 1, models, byId)
    ensures var front, c, rest := initial[..i], initial[i], initial[i + 1..];
            && i < |models| && models[i] == c && NextVisit(kinds, front, c, rest, byId)
            && models == front + [c] + Survivors(kinds, rest)
  {
    var front, c, rest := initial[..i], initial[i], initial[i + 1..];
    assert initial[..i + 1] == front + [c] && initial == front + ([c] + rest);
    hide Survivors, ById, NextVisit;
    VisitingNext(kinds, front, c, rest, byId);
  }

  lemma AfterVisit<C>(kinds: map<C, Kind>, initial: seq<C>, i: nat, models: seq<C>, byId: map<string, C>)
    requires i < |initial| && NoDuplicates(initial) && AllKnown(kinds, initial)
    requires var t := [initial[i]] + initial[i + 1..];
             AllKnown(kinds, t) && models == initial[..i] + Survivors(kinds, t) && ById(kinds, t, byId)
    ensures Visited(kinds, initial, i, models, byId)
  {
    hide Survivors, ById;
    assert initial[i..] == [initial[i]] + initial[i + 1..];
  }

  // ------------------------------------------------- all conflicts resolved

  ghost function KindsOf<C>(w: World<C>): map<C, Kind> {
    map c | c in w.attributes :: w.attributes[c].kind
  }

  ghost predicate WithinGroups<C>(kinds: map<C, Kind>, calls: seq<Call<C>>) {
    forall k :: 0 <= k < |calls| ==>
                  && calls[k].0 in kinds && calls[k].1 in kinds
                  && GroupId(kinds[calls[k].0]).Some? && GroupId(kinds[calls[k].0]) == GroupId(kinds[calls[k].1])
  }

  /** What the method CheckForConflicts does to the collection. */
  ghost predicate Resolves<C>(w: World<C>, calls: seq<Call<C>>, t: World<C>) {
    && Known(w) && KnownCalls(w, calls)
    && KeepsPresent(w, calls) && WithinGroups(KindsOf(w), calls)
    && t == After(w, calls)
    && AllKnown(KindsOf(w), w.models)
    && t.models == Survivors(KindsOf(w), w.models)
  }

  ghost predicate OnePerGroup<C>(kinds: map<C, Kind>, s: seq<C>) {
    && AllKnown(kinds, s)
    && forall c, d :: c in s && d in s && c != d && GroupId(kinds[c]).Some? ==> GroupId(kinds[c]) != GroupId(kinds[d])
  }

  /** One conversation is left for each group; it is a V2 group if any of them was, and
      nothing else is gone. */
  lemma GroupsResolved<C>(w: World<C>, calls: seq<Call<C>>, t: World<C>)
    requires Resolves(w, calls, t)
    ensures OnePerGroup(KindsOf(w), t.models)
    ensures forall c :: c in w.models && GroupId(KindsOf(w)[c]).None? ==> c in t.models
    ensures forall c :: c in w.models ==>
                          var home := Home(w, calls, c);
                          && home in t.models && home in w.attributes
                          && GroupId(KindsOf(w)[home]) == GroupId(KindsOf(w)[c])
                          && (KindsOf(w)[c].GroupV2? ==> KindsOf(w)[home].GroupV2?)
  {
    var kinds := KindsOf(w);
    HomesStay(w, calls);
    KeepMembers(w.models, Winners(kinds, w.models));
    forall c | c in w.models
      ensures var home := Home(w, calls, c);
              home in w.attributes && GroupId(kinds[home]) == GroupId(kinds[c])
              && (kinds[c].GroupV2? ==> kinds[home].GroupV2?)
    {
      HomeInGroup(w, calls, c);
      WinnerIsPreferred(kinds, w.models, c, Home(w, calls, c));
    }
    forall c, d | c in t.models && d in t.models && GroupId(kinds[c]).Some? && GroupId(kinds[c]) == GroupId(kinds[d])
      ensures c == d
    {
      WinnerIsOne(kinds, w.models, GroupId(kinds[c]).value);
    }
  }

  /** And everything of the others is now its own. */
  lemma OneConversationPerGroup<C>(w: World<C>, calls: seq<Call<C>>, t: World<C>)
    requires Resolves(w, calls, t) && MessagesLive(w)
    ensures OnePerGroup(KindsOf(w), t.models)
    ensures forall c :: c in w.models && GroupId(KindsOf(w)[c]).None? ==> c in t.models
    ensures forall c :: c in w.models ==>
                          var home := Home(w, calls, c);
                          && home in t.models && home in w.attributes
                          && GroupId(KindsOf(w)[home]) == GroupId(KindsOf(w)[c])
                          && (KindsOf(w)[c].GroupV2? ==> KindsOf(w)[home].GroupV2?)
    ensures MessagesLive(t) && t.messages.Keys == w.messages.Keys
    ensures forall m :: m in w.messages ==> t.messages[m] == Home(w, calls, w.messages[m])
  {
    GroupsResolved(w, calls, t);
    CombinesConserveMessages(w, calls);
    hide OnePerGroup, GroupId, Resolves;
  }

  /** Both are groups, and have the same V2 id, be it derived or not. */
  predicate SameGroup(a: Kind, b: Kind) {
    match (a, b)
    case (GroupV1(x), GroupV1(y)) => x == y
    case (GroupV1(x), GroupV2(y)) => x == y
    case (GroupV2(x), GroupV1(y)) => x == y
    case (GroupV2(x), GroupV2(y)) => x == y
    case _ => false
  }

  /** `a` is of the group of `b`, and V2 if `b` is. */
  predicate StandsFor(a: Kind, b: Kind) {
    SameGroup(a, b) && (b.GroupV2? ==> a.GroupV2?)
  }

  /** Which conversations stay.  Of the V2 groups of one id it is the last, of the V1
      groups the last if there is no V2 group; whatever is no group stays. */
  lemma StaysExactlyWhen<C>(w: World<C>, calls: seq<Call<C>>, t: World<C>, k: nat)
    requires Resolves(w, calls, t) && k < |w.models|
    ensures w.models[k] in w.attributes && (forall j :: 0 <= j < |w.models| ==> w.models[j] in w.attributes)
    ensures w.models[k] in t.models <==>
              forall j :: (0 <= j < |w.models| && j != k
                           && SameGroup(w.attributes[w.models[j]].kind, w.attributes[w.models[k]].kind)) ==>
                  if w.attributes[w.models[k]].kind.GroupV2?
                  then w.attributes[w.models[j]].kind.GroupV1? || j < k
                  else w.attributes[w.models[j]].kind.GroupV1? && j < k
  {
    var kinds := KindsOf(w);
    KeepMembers(w.models, Winners(kinds, w.models));
    assert forall j :: 0 <= j < |w.models| ==> kinds[w.models[j]] == w.attributes[w.models[j]].kind;
    assert forall j :: 0 <= j < |w.models| ==>
      (SameGroup(kinds[w.models[j]], kinds[w.models[k]]) <==>
         GroupId(kinds[w.models[k]]).Some? && GroupId(kinds[w.models[j]]) == GroupId(kinds[w.models[k]]));
    assert w.models[k] in Winners(kinds, w.models) <==> Wins(kinds, w.models, k) by {
      assert forall j :: 0 <= j < |w.models| && w.models[j] == w.models[k] ==> j == k;
    }
  }

  /** So no two of one group stay, and each of a group leaves one behind, V2 if it was. */
  lemma OneOfEachGroupStays<C>(w: World<C>, calls: seq<Call<C>>, t: World<C>)
    requires Resolves(w, calls, t)
    ensures forall c, d :: c in t.models && d in t.models && c != d && c in w.attributes && d in w.attributes ==>
              !SameGroup(w.attributes[c].kind, w.attributes[d].kind)
    ensures forall c :: c in w.models && (w.attributes[c].kind.GroupV1? || w.attributes[c].kind.GroupV2?) ==>
              exists d :: d in t.models && d in w.attributes && StandsFor(w.attributes[d].kind, w.attributes[c].kind)
    ensures forall c :: c in w.models && !w.attributes[c].kind.GroupV1? && !w.attributes[c].kind.GroupV2? ==> c in t.models
  {
    GroupsResolved(w, calls, t);
    var kinds := KindsOf(w);
    assert forall c :: c in w.attributes ==> kinds[c] == w.attributes[c].kind;
    forall c | c in w.models && GroupId(kinds[c]).Some?
      ensures exists d :: d in t.models && d in w.attributes && StandsFor(w.attributes[d].kind, w.attributes[c].kind)
    {
      var d := Home(w, calls, c);
      assert d in t.models && StandsFor(kinds[d], kinds[c]);
    }
  }

  ghost predicate LatestFirst<C>(w: World<C>) {
    forall i, j :: 0 <= i < j < |w.models| && w.models[i] in w.attributes && w.models[j] in w.attributes ==>
      ActiveAts(w)[w.models[i]] >= ActiveAts(w)[w.models[j]]
  }

  /** Two positions hold groups with the same id, both V2 or both V1. */
  ghost predicate Rivals<C>(w: World<C>, k: nat, j: nat)
    requires AllKnown(KindsOf(w), w.models) && k < |w.models| && j < |w.models|
  {
    var kinds, c, d := KindsOf(w), w.models[k], w.models[j];
    GroupId(kinds[c]).Some? && GroupId(kinds[d]) == GroupId(kinds[c]) && kinds[d].GroupV2? == kinds[c].GroupV2?
  }

  /** In a collection sorted by activity, latest first, the conversation that stays
      is the least recently active of its rivals.  So it is the most recently active
      one exactly when all of them were active at the same time. */
  lemma LeastActiveIsKept<C>(w: World<C>, k: nat)
    requires Known(w) && AllKnown(KindsOf(w), w.models) && LatestFirst(w)
    requires k < |w.models| && Wins(KindsOf(w), w.models, k)
    ensures forall j: nat :: j < |w.models| && Rivals(w, k, j) ==> ActiveAts(w)[w.models[k]] <= ActiveAts(w)[w.models[j]]
    ensures (forall j: nat :: j < |w.models| && Rivals(w, k, j) ==> ActiveAts(w)[w.models[j]] <= ActiveAts(w)[w.models[k]]) <==>
            (forall j: nat :: j < |w.models| && Rivals(w, k, j) ==> ActiveAts(w)[w.models[j]] == ActiveAts(w)[w.models[k]])
  {
    forall j: nat | j < |w.models| && Rivals(w, k, j)
      ensures ActiveAts(w)[w.models[k]] <= ActiveAts(w)[w.models[j]]
    {
      assert j <= k;
    }
  }

  /** Two conversations of one group, the first one active later. */
  const TWO_OF_A_GROUP := World(map[0 := Attributes(GroupV2("g"), Some(2), None, None, map[]),
                                    1 := Attributes(GroupV2("g"), Some(1), None, None, map[])],
                                [0, 1], map[])

  /** The older one of the two stays. */
  lemma OlderOneStays()
    ensures var w := TWO_OF_A_GROUP;
            && Known(w) && AllKnown(KindsOf(w), w.models) && LatestFirst(w)
            && Survivors(KindsOf(w), w.models) == [1] && ActiveAts(w)[1] < ActiveAts(w)[0]
  {
    var w := TWO_OF_A_GROUP;
    var kinds := KindsOf(w);
    assert w.models[0] == 0 && w.models[1] == 1;
    assert Wins(kinds, w.models, 1) && !Wins(kinds, w.models, 0);
    assert Winners(kinds, w.models) == {1};
    assert w.models[1..] == [1] && Keep([1], {1}) == [1];
  }

  lemma WinnerIsPreferred<C>(kinds: map<C, Kind>, s: seq<C>, c: C, winner: C)
    requires AllKnown(kinds, s) && c in s && winner in Winners(kinds, s)
    requires GroupId(kinds[c]) == GroupId(kinds[winner])
    ensures kinds[c].GroupV2? ==> kinds[winner].GroupV2?
  {
    var k: nat :| k < |s| && Wins(kinds, s, k) && s[k] == winner;
    var j: nat :| j < |s| && s[j] == c;
    assert j != k && kinds[c].GroupV2? ==> kinds[s[k]].GroupV2?;
  }

  lemma {:induction false} HomeInGroup<C>(w: World<C>, calls: seq<Call<C>>, c: C)
    requires c in w.attributes && KnownCalls(w, calls) && WithinGroups(KindsOf(w), calls)
    ensures Home(w, calls, c) in w.attributes
    ensures GroupId(KindsOf(w)[Home(w, calls, c)]) == GroupId(KindsOf(w)[c])
    decreases |calls|
  {
    if calls != [] {
      var w1 := Combine(w, calls[0].0, calls[0].1);
      KindsKept(w, calls[0]);
      assert KindsOf(w1) == KindsOf(w);
      HomeInGroup(w1, calls[1..], Next(w, calls[0], c));
    }
  }
}
