/** Combining two conversations into one.

    `Combine` is one run of `#doCombineConversations`; runs are serialized by a
    queue of their own.  `C` is the type of conversation references; the class in
    ConversationCombiner.dfy implements these functions on objects. */
module Combining {
  import opened Common

  datatype Kind = Private | GroupV1(derivedId: string) | GroupV2(groupId: string) | OtherGroup

  /** Numbers are as the source keeps them: absent, or zero, both count as unset.
      `data` are the attributes that are copied when the survivor has none. */
  datatype Attributes = Attributes(
    kind: Kind,
    activeAt: Option<nat>,
    expireTimerVersion: Option<nat>,
    expireTimer: Option<nat>,
    data: map<string, string>)

  /** `models` are the conversations in the collection; `attributes` also has
      those that were removed from it. */
  datatype World<C> = World(attributes: map<C, Attributes>, models: seq<C>, messages: map<string, C>)

  function Version(o: Option<nat>): nat {
    if o.Some? then o.value else 1
  }

  function CombinedActiveAt(obsolete: Option<nat>, current: Option<nat>): Option<nat> {
    if NonZero(obsolete) && NonZero(current) then Some(Max(obsolete.value, current.value))
    else if NonZero(obsolete) then obsolete
    else current
  }

  function CombinedTimer(obsolete: Option<nat>, current: Option<nat>): Option<nat> {
    if !NonZero(current) || (NonZero(obsolete) && obsolete.value < current.value) then obsolete else current
  }

  const DRAFT_ATTACHMENTS := "draftAttachments"

  function Survivor(current: Attributes, obsolete: Attributes): Attributes {
    current.(
      activeAt := CombinedActiveAt(obsolete.activeAt, current.activeAt),
      expireTimerVersion := Some(Max(Version(obsolete.expireTimerVersion), Version(current.expireTimerVersion))),
      expireTimer := CombinedTimer(obsolete.expireTimer, current.expireTimer),
      data := obsolete.data + current.data)
  }

  /** What is left on the obsolete conversation: attached files that moved to the
      survivor are no longer its own. */
  function Obsoleted(current: Attributes, obsolete: Attributes): Attributes {
    if DRAFT_ATTACHMENTS in current.data then obsolete
    else obsolete.(data := obsolete.data - {DRAFT_ATTACHMENTS})
  }

  function Without<C(==)>(s: seq<C>, c: C): seq<C> {
    if s == [] then []
    else (if s[0] == c then [] else [s[0]]) + Without(s[1..], c)
  }

  function Moved<C(==)>(messages: map<string, C>, obsolete: C, current: C): map<string, C> {
    map m | m in messages :: if messages[m] == obsolete then current else messages[m]
  }

  predicate SameType(a: Attributes, b: Attributes) {
    a.kind.Private? <==> b.kind.Private?
  }

  /** The call finds the obsolete conversation in place and of the same type. */
  predicate Proceeds<C(==)>(w: World<C>, current: C, obsolete: C)
    requires current in w.attributes && obsolete in w.attributes
  {
    obsolete in w.models && SameType(w.attributes[current], w.attributes[obsolete])
  }

  function Combine<C(==)>(w: World<C>, current: C, obsolete: C): (t: World<C>)
    requires current in w.attributes && obsolete in w.attributes
    ensures t.attributes.Keys == w.attributes.Keys
  {
    if !Proceeds(w, current, obsolete) then w
    else
      var a, b := w.attributes[current], w.attributes[obsolete];
      World(w.attributes[obsolete := Obsoleted(a, b)][current := Survivor(a, b)],
            Without(w.models, obsolete),
            Moved(w.messages, obsolete, current))
  }

  // ------------------------------------------------------------------ lists

  lemma {:induction false} WithoutMembers<C>(s: seq<C>, c: C)
    ensures forall x :: x in Without(s, c) ==> x in s && x != c
    ensures forall x :: x in s && x != c ==> x in Without(s, c)
    ensures NoDuplicates(s) ==> NoDuplicates(Without(s, c))
  {
    if s != [] {
      WithoutMembers(s[1..], c);
      assert s == [s[0]] + s[1..];
      if NoDuplicates(s) {
        assert s[0] !in s[1..];
      }
    }
  }

  lemma {:induction false} WithoutAbsent<C>(s: seq<C>, c: C)
    requires c !in s
    ensures Without(s, c) == s
  {
    if s != [] {
      WithoutAbsent(s[1..], c);
      assert s == [s[0]] + s[1..];
    }
  }

  lemma WithoutHead<C>(s: seq<C>, c: C)
    requires s != []
    ensures Without(s, c) == (if s[0] == c then [] else [s[0]]) + Without(s[1..], c)
  {
  }

  lemma {:induction false} WithoutConcat<C>(a: seq<C>, b: seq<C>, c: C)
    ensures Without(a + b, c) == Without(a, c) + Without(b, c)
  {
    if a == [] {
      assert a + b == b;
    } else {
      hide Without;
      WithoutConcat(a[1..], b, c);
      assert (a + b)[0] == a[0] && (a + b)[1..] == a[1..] + b;
      WithoutHead(a, c);
      WithoutHead(a + b, c);
      var first := if a[0] == c then [] else [a[0]];
      assert first + (Without(a[1..], c) + Without(b, c)) == (first + Without(a[1..], c)) + Without(b, c);
    }
  }

  lemma SpliceParts<C>(s: seq<C>, c: C, i: nat)
    requires NoDuplicates(s) && i < |s| && s[i] == c
    ensures s == s[..i] + ([c] + s[i + 1..]) && c !in s[..i] && c !in s[i + 1..]
  {
  }

  /** Splicing out the one occurrence. */
  lemma WithoutIsSplice<C>(s: seq<C>, c: C, i: nat)
    requires NoDuplicates(s) && i < |s| && s[i] == c
    ensures Without(s, c) == s[..i] + s[i + 1..]
  {
    SpliceParts(s, c, i);
    assert Without([c], c) == [];
    hide Without, NoDuplicates;
    var front, back := s[..i], s[i + 1..];
    WithoutAbsent(front, c);
    WithoutAbsent(back, c);
    WithoutConcat([c], back, c);
    assert Without([c] + back, c) == back;
    WithoutConcat(front, [c] + back, c);
  }

  // ----------------------------------------------------------- one combine

  ghost predicate Known<C>(w: World<C>) {
    NoDuplicates(w.models) && forall c :: c in w.models ==> c in w.attributes
  }

  /** No message belongs to a conversation that is not in the collection. */
  ghost predicate MessagesLive<C>(w: World<C>) {
    forall m :: m in w.messages ==> w.messages[m] in w.models
  }

  lemma CombineKeepsKnown<C>(w: World<C>, current: C, obsolete: C)
    requires Known(w) && current in w.attributes && obsolete in w.attributes
    ensures Known(Combine(w, current, obsolete))
    ensures forall c :: c in Combine(w, current, obsolete).models ==> c in w.models
  {
    WithoutMembers(w.models, obsolete);
    assert forall c :: c in w.models ==> c in w.attributes.Keys;
  }

  predicate HasMessages<C(==)>(w: World<C>, c: C) {
    c in w.messages.Values
  }

  /** A combine leaves messages with a removed conversation exactly when it goes
      through, there are messages to move, and the conversation to keep is not in
      the collection or is the one removed. */
  lemma MessagesLiveExactlyWhen<C>(w: World<C>, current: C, obsolete: C)
    requires Known(w) && MessagesLive(w) && current in w.attributes && obsolete in w.attributes
    ensures MessagesLive(Combine(w, current, obsolete)) <==>
              || !Proceeds(w, current, obsolete)
              || !HasMessages(w, obsolete)
              || (current in w.models && current != obsolete)
  {
    WithoutMembers(w.models, obsolete);
    if Proceeds(w, current, obsolete) && HasMessages(w, obsolete) {
      var m :| m in w.messages && w.messages[m] == obsolete;
      assert Combine(w, current, obsolete).messages[m] == current;
    }
  }

  function Num(o: Option<nat>): nat {
    if o.Some? then o.value else 0
  }

  /** A value that counts as set: zero and absent do not. */
  predicate IsSet(o: Option<nat>) {
    o.Some? && o.value != 0
  }

  /** What a combine of two different conversations does: nothing if the obsolete one is
      gone or one is a group and the other is not.  Otherwise it is removed, all its
      messages belong to the other one, and that has the later activity, the higher
      timer version, the shorter timer, and the attributes it did not have.  Nobody
      else changes. */
  lemma CombineExactly<C>(w: World<C>, current: C, obsolete: C)
    requires Known(w) && current in w.attributes && obsolete in w.attributes && current != obsolete
    ensures var t := Combine(w, current, obsolete);
            if obsolete !in w.models || (w.attributes[current].kind == Private) != (w.attributes[obsolete].kind == Private)
            then t == w
            else
              && (forall c :: c in t.models ==> c in w.models && c != obsolete)
              && (forall c :: c in w.models && c != obsolete ==> c in t.models)
              && t.messages.Keys == w.messages.Keys
              && (forall m :: m in w.messages ==>
                    t.messages[m] == if w.messages[m] == obsolete then current else w.messages[m])
              && (forall c :: c in w.attributes && c != current && c != obsolete ==> t.attributes[c] == w.attributes[c])
              && SurvivorRight(w.attributes[current], w.attributes[obsolete], t.attributes[current])
              && t.attributes[obsolete].data.Keys ==
                 w.attributes[obsolete].data.Keys
                 - (if "draftAttachments" in w.attributes[current].data then {} else {"draftAttachments"})
  {
    WithoutMembers(w.models, obsolete);
    SurvivorIsRight(w.attributes[current], w.attributes[obsolete]);
  }

  /** `x` is what `a` becomes when `b` is combined into it. */
  ghost predicate SurvivorRight(a: Attributes, b: Attributes, x: Attributes) {
    && x.kind == a.kind
    && (IsSet(x.activeAt) <==> IsSet(a.activeAt) || IsSet(b.activeAt))
    && Num(x.activeAt) == (if Num(a.activeAt) >= Num(b.activeAt) then Num(a.activeAt) else Num(b.activeAt))
    && var (v, u) := (if a.expireTimerVersion.Some? then a.expireTimerVersion.value else 1,
                      if b.expireTimerVersion.Some? then b.expireTimerVersion.value else 1);
    && x.expireTimerVersion == Some(if v >= u then v else u)
    && (IsSet(x.expireTimer) <==> IsSet(a.expireTimer) || IsSet(b.expireTimer))
    && (IsSet(a.expireTimer) ==> Num(x.expireTimer) <= a.expireTimer.value)
    && (IsSet(b.expireTimer) ==> Num(x.expireTimer) <= b.expireTimer.value)
    && (Num(x.expireTimer) == Num(a.expireTimer) || Num(x.expireTimer) == Num(b.expireTimer))
    && (forall k :: k in x.data <==> k in a.data || k in b.data)
    && (forall k :: k in x.data ==> x.data[k] == if k in a.data then a.data[k] else b.data[k])
  }

  lemma SurvivorIsRight(a: Attributes, b: Attributes)
    ensures SurvivorRight(a, b, Survivor(a, b))
  {
    var x := Survivor(a, b);
    assert forall k :: k in x.data <==> k in a.data || k in b.data;
  }

  // ------------------------------------------------------- runs of combines

  type Call<C> = (C, C)   // the conversation to keep, the obsolete one

  ghost predicate KnownCalls<C>(w: World<C>, calls: seq<Call<C>>) {
    forall k :: 0 <= k < |calls| ==> calls[k].0 in w.attributes && calls[k].1 in w.attributes
  }

  ghost function After<C>(w: World<C>, calls: seq<Call<C>>): (t: World<C>)
    requires KnownCalls(w, calls)
    ensures t.attributes.Keys == w.attributes.Keys
    decreases |calls|
  {
    if calls == [] then w
    else After(Combine(w, calls[0].0, calls[0].1), calls[1..])
  }

  lemma {:induction false} ModelsShrink<C>(w: World<C>, calls: seq<Call<C>>)
    requires Known(w) && KnownCalls(w, calls)
    ensures forall c :: c in After(w, calls).models ==> c in w.models
    decreases |calls|
  {
    if calls != [] {
      CombineKeepsKnown(w, calls[0].0, calls[0].1);
      ModelsShrink(Combine(w, calls[0].0, calls[0].1), calls[1..]);
    }
  }

  /** Every call keeps a conversation that is then in the collection. */
  ghost predicate KeepsPresent<C>(w: World<C>, calls: seq<Call<C>>)
    requires KnownCalls(w, calls)
    decreases |calls|
  {
    calls != [] ==>
      && calls[0].0 in w.models && calls[0].0 != calls[0].1
      && KeepsPresent(Combine(w, calls[0].0, calls[0].1), calls[1..])
  }

  lemma {:induction false} AfterOneMore<C>(w: World<C>, calls: seq<Call<C>>, call: Call<C>)
    requires KnownCalls(w, calls) && call.0 in w.attributes && call.1 in w.attributes
    ensures KnownCalls(w, calls + [call])
    ensures After(w, calls + [call]) == Combine(After(w, calls), call.0, call.1)
    ensures KeepsPresent(w, calls + [call]) <==>
              KeepsPresent(w, calls) && call.0 in After(w, calls).models && call.0 != call.1
    decreases |calls|
  {
    var all := calls + [call];
    if calls == [] {
      assert all == [call] && all[1..] == [];
    } else {
      AfterOneMore(Combine(w, calls[0].0, calls[0].1), calls[1..], call);
      assert all[0] == calls[0] && all[1..] == calls[1..] + [call];
    }
  }

  /** The conversation that `c` has become part of after the first call. */
  function Next<C(==)>(w: World<C>, call: Call<C>, c: C): C
    requires call.0 in w.attributes && call.1 in w.attributes
  {
    if c == call.1 && Proceeds(w, call.0, call.1) then call.0 else c
  }

  /** The conversation that `c` has become part of in the end. */
  ghost function Home<C>(w: World<C>, calls: seq<Call<C>>, c: C): C
    requires KnownCalls(w, calls)
    decreases |calls|
  {
    if calls == [] then c
    else Home(Combine(w, calls[0].0, calls[0].1), calls[1..], Next(w, calls[0], c))
  }

  /** Messages are conserved over any run: none is lost, none belongs to a removed
      conversation, and each is where its conversation went. */
  lemma {:induction false} CombinesConserveMessages<C>(w: World<C>, calls: seq<Call<C>>)
    requires Known(w) && MessagesLive(w) && KnownCalls(w, calls) && KeepsPresent(w, calls)
    ensures var t := After(w, calls);
            && Known(t) && MessagesLive(t)
            && t.messages.Keys == w.messages.Keys
            && (forall m :: m in w.messages ==> t.messages[m] == Home(w, calls, w.messages[m]))
            && (forall c :: c in t.models ==> c in w.models && Home(w, calls, c) == c)
            && (forall c :: c in w.models ==> Home(w, calls, c) in t.models)
    decreases |calls|
  {
    if calls != [] {
      var w1 := Combine(w, calls[0].0, calls[0].1);
      OneCall(w, calls[0]);
      CombinesConserveMessages(w1, calls[1..]);
      HomesFromNext(w, calls);
    }
  }

  /** Whatever messages there are, every conversation has become part of one that is
      still there, and those are part of themselves. */
  lemma {:induction false} HomesStay<C>(w: World<C>, calls: seq<Call<C>>)
    requires Known(w) && KnownCalls(w, calls) && KeepsPresent(w, calls)
    ensures var t := After(w, calls);
            && (forall c :: c in t.models ==> c in w.models && Home(w, calls, c) == c)
            && (forall c :: c in w.models ==> Home(w, calls, c) in t.models)
    decreases |calls|
  {
    if calls != [] {
      var w1 := Combine(w, calls[0].0, calls[0].1);
      CombineKeepsKnown(w, calls[0].0, calls[0].1);
      WithoutMembers(w.models, calls[0].1);
      HomesStay(w1, calls[1..]);
      HomesFromNext(w, calls);
      assert forall c :: c in w1.models ==> Next(w, calls[0], c) == c;
    }
  }

  lemma HomesFromNext<C>(w: World<C>, calls: seq<Call<C>>)
    requires KnownCalls(w, calls) && calls != []
    ensures var w1 := Combine(w, calls[0].0, calls[0].1);
            forall c :: Home(w, calls, c) == Home(w1, calls[1..], Next(w, calls[0], c))
  {
  }

  lemma OneCall<C>(w: World<C>, call: Call<C>)
    requires Known(w) && MessagesLive(w)
    requires call.0 in w.models && call.1 in w.attributes && call.0 != call.1
    ensures var w1 := Combine(w, call.0, call.1);
            && Known(w1) && MessagesLive(w1) && w1.messages.Keys == w.messages.Keys
            && (forall c :: c in w1.models ==> c in w.models && Next(w, call, c) == c)
            && (forall c :: c in w.models ==> Next(w, call, c) in w1.models)
            && (forall m :: m in w.messages ==> w1.messages[m] == Next(w, call, w.messages[m]))
  {
    CombineKeepsKnown(w, call.0, call.1);
    MessagesLiveExactlyWhen(w, call.0, call.1);
    WithoutMembers(w.models, call.1);
  }

  // ------------------------------------- what the survivors end up with

  ghost predicate IsLargest<C>(members: set<C>, f: map<C, nat>, v: nat)
    requires members <= f.Keys
  {
    (forall d :: d in members ==> f[d] <= v) && (exists d :: d in members && f[d] == v)
  }

  /** The smallest value that is not zero, or zero when all are. */
  ghost predicate IsLeastNonZero<C>(members: set<C>, f: map<C, nat>, v: nat)
    requires members <= f.Keys
  {
    && (forall d :: d in members && f[d] != 0 ==> 0 < v <= f[d])
    && (exists d :: d in members && f[d] == v)
  }

  ghost function ActiveAts<C>(w: World<C>): map<C, nat> {
    map c | c in w.attributes :: Num(w.attributes[c].activeAt)
  }

  ghost function Versions<C>(w: World<C>): map<C, nat> {
    map c | c in w.attributes :: Version(w.attributes[c].expireTimerVersion)
  }

  ghost function Timers<C>(w: World<C>): map<C, nat> {
    map c | c in w.attributes :: Num(w.attributes[c].expireTimer)
  }

  ghost predicate DataOf<C>(members: set<C>, w: World<C>, data: map<string, string>)
    requires members <= w.attributes.Keys
  {
    && (forall d, k :: d in members && k in w.attributes[d].data ==> k in data)
    && (forall k :: k in data ==> exists d :: d in members && k in w.attributes[d].data && w.attributes[d].data[k] == data[k])
  }

  /** `a` is what combining all of `members` gives. */
  ghost predicate Combined<C>(w: World<C>, members: set<C>, a: Attributes)
    requires members <= w.attributes.Keys
  {
    && IsLargest(members, ActiveAts(w), Num(a.activeAt))
    && IsLargest(members, Versions(w), Version(a.expireTimerVersion))
    && IsLeastNonZero(members, Timers(w), Num(a.expireTimer))
    && DataOf(members, w, a.data)
  }

  ghost function Members<C>(w: World<C>, calls: seq<Call<C>>, c: C): set<C>
    requires KnownCalls(w, calls)
  {
    set d | d in w.models && Home(w, calls, d) == c
  }

  /** One member `obsolete` joins through `current`. */
  lemma OneMore<C>(w: World<C>, call: Call<C>, members: set<C>, more: set<C>, a: Attributes)
    requires call.0 in w.attributes && call.1 in w.attributes && call.0 != call.1 && Proceeds(w, call.0, call.1)
    requires members <= w.attributes.Keys && call.1 !in members
    requires more == if call.0 in members then members + {call.1} else members
    requires Combined(Combine(w, call.0, call.1), members, a)
    ensures Combined(w, more, a)
  {
    var w1 := Combine(w, call.0, call.1);
    hide IsLargest, IsLeastNonZero, DataOf;
    NumbersOfCombine(w, call);
    hide Combine, ActiveAts, Versions, Timers, Proceeds;
    LargestWithOneMore(ActiveAts(w), ActiveAts(w1), members, call.0, call.1, Num(a.activeAt));
    LargestWithOneMore(Versions(w), Versions(w1), members, call.0, call.1, Version(a.expireTimerVersion));
    LeastWithOneMore(Timers(w), Timers(w1), members, call.0, call.1, Num(a.expireTimer));
    DataWithOneMore(w, call, members, more, a.data);
  }

  /** What a combine does to the numbers. */
  lemma NumbersOfCombine<C>(w: World<C>, call: Call<C>)
    requires call.0 in w.attributes && call.1 in w.attributes && call.0 != call.1 && Proceeds(w, call.0, call.1)
    ensures var w1 := Combine(w, call.0, call.1);
            && ActiveAts(w1) == ActiveAts(w)[call.0 := Max(ActiveAts(w)[call.0], ActiveAts(w)[call.1])]
            && Versions(w1) == Versions(w)[call.0 := Max(Versions(w)[call.0], Versions(w)[call.1])]
            && Timers(w1) == Timers(w)[call.0 := LeastNonZero(Timers(w)[call.0], Timers(w)[call.1])]
            && ActiveAts(w).Keys == Versions(w).Keys == Timers(w).Keys == w.attributes.Keys
  {
    var a, b := w.attributes[call.0], w.attributes[call.1];
    var x, y := Survivor(a, b), Obsoleted(a, b);
    var w1 := Combine(w, call.0, call.1);
    assert w1.attributes == w.attributes[call.1 := y][call.0 := x];
    NumbersOfSurvivor(a, b);
    assert ActiveAts(w)[call.0] == Num(a.activeAt) && ActiveAts(w)[call.1] == Num(b.activeAt);
    assert Versions(w)[call.0] == Version(a.expireTimerVersion) && Versions(w)[call.1] == Version(b.expireTimerVersion);
    assert Timers(w)[call.0] == Num(a.expireTimer) && Timers(w)[call.1] == Num(b.expireTimer);
    hide Survivor, Obsoleted, Num, Version, Max, LeastNonZero, Combine, Proceeds;
    ActiveAtsUpdated(w, w1, call, x, y);
    VersionsUpdated(w, w1, call, x, y);
    TimersUpdated(w, w1, call, x, y);
    hide ActiveAts, Versions, Timers;
    KeysOfNumbers(w);
  }

  lemma KeysOfNumbers<C>(w: World<C>)
    ensures ActiveAts(w).Keys == Versions(w).Keys == Timers(w).Keys == w.attributes.Keys
  {
  }

  lemma ActiveAtsUpdated<C>(w: World<C>, w1: World<C>, call: Call<C>, x: Attributes, y: Attributes)
    requires call.1 in w.attributes && w1.attributes == w.attributes[call.1 := y][call.0 := x]
    requires y.activeAt == w.attributes[call.1].activeAt
    ensures ActiveAts(w1) == ActiveAts(w)[call.0 := Num(x.activeAt)]
  {
  }

  lemma VersionsUpdated<C>(w: World<C>, w1: World<C>, call: Call<C>, x: Attributes, y: Attributes)
    requires call.1 in w.attributes && w1.attributes == w.attributes[call.1 := y][call.0 := x]
    requires y.expireTimerVersion == w.attributes[call.1].expireTimerVersion
    ensures Versions(w1) == Versions(w)[call.0 := Version(x.expireTimerVersion)]
  {
  }

  lemma TimersUpdated<C>(w: World<C>, w1: World<C>, call: Call<C>, x: Attributes, y: Attributes)
    requires call.1 in w.attributes && w1.attributes == w.attributes[call.1 := y][call.0 := x]
    requires y.expireTimer == w.attributes[call.1].expireTimer
    ensures Timers(w1) == Timers(w)[call.0 := Num(x.expireTimer)]
  {
  }

  lemma NumbersOfSurvivor(a: Attributes, b: Attributes)
    ensures Num(Survivor(a, b).activeAt) == Max(Num(a.activeAt), Num(b.activeAt))
    ensures Version(Survivor(a, b).expireTimerVersion) == Max(Version(a.expireTimerVersion), Version(b.expireTimerVersion))
    ensures Num(Survivor(a, b).expireTimer) == LeastNonZero(Num(a.expireTimer), Num(b.expireTimer))
    ensures Obsoleted(a, b) == b.(data := Obsoleted(a, b).data)
  {
  }

  function LeastNonZero(current: nat, obsolete: nat): nat {
    if current == 0 || (obsolete != 0 && obsolete < current) then obsolete else current
  }

  lemma LargestWithOneMore<C>(f: map<C, nat>, g: map<C, nat>, members: set<C>, c: C, o: C, v: nat)
    requires members <= f.Keys && f.Keys == g.Keys && c in f && o in f && o !in members
    requires forall d :: d in members && d != c ==> g[d] == f[d]
    requires g[c] == Max(f[c], f[o])
    requires IsLargest(members, g, v)
    ensures IsLargest(if c in members then members + {o} else members, f, v)
  {
    var d :| d in members && g[d] == v;
    assert f[d] == v || (d == c && f[o] == v);
    assert forall d :: d in members ==> f[d] <= g[d];
  }

  lemma LeastWithOneMore<C>(f: map<C, nat>, g: map<C, nat>, members: set<C>, c: C, o: C, v: nat)
    requires members <= f.Keys && f.Keys == g.Keys && c in f && o in f && o !in members
    requires forall d :: d in members && d != c ==> g[d] == f[d]
    requires g[c] == LeastNonZero(f[c], f[o])
    requires IsLeastNonZero(members, g, v)
    ensures IsLeastNonZero(if c in members then members + {o} else members, f, v)
  {
    var d :| d in members && g[d] == v;
    assert f[d] == v || (d == c && f[o] == v);
    assert forall d :: d in members && f[d] != 0 ==> 0 < g[d] <= f[d];
  }

  lemma DataWithOneMore<C>(w: World<C>, call: Call<C>, members: set<C>, more: set<C>, data: map<string, string>)
    requires call.0 in w.attributes && call.1 in w.attributes && call.0 != call.1 && Proceeds(w, call.0, call.1)
    requires members <= w.attributes.Keys && call.1 !in members
    requires more == if call.0 in members then members + {call.1} else members
    requires DataOf(members, Combine(w, call.0, call.1), data)
    ensures DataOf(more, w, data)
  {
    var w1 := Combine(w, call.0, call.1);
    forall d, k | d in more && k in w.attributes[d].data
      ensures k in data
    {
      var e := if d == call.1 then call.0 else d;
      assert e in members && k in w1.attributes[e].data;
    }
    forall k | k in data
      ensures exists d :: d in more && k in w.attributes[d].data && w.attributes[d].data[k] == data[k]
    {
      var d :| d in members && k in w1.attributes[d].data && w1.attributes[d].data[k] == data[k];
      if d == call.0 && k !in w.attributes[d].data {
        assert call.1 in more && k in w.attributes[call.1].data;
      } else {
        assert k in w.attributes[d].data;
      }
    }
  }

  lemma Alone<C>(w: World<C>, c: C)
    requires c in w.attributes
    ensures Combined(w, {c}, w.attributes[c])
  {
  }

  /** Whatever the order of the combines, a survivor has the latest activity, the
      highest timer version and the smallest timer of all that became part of it,
      and the copied attributes of each. */
  lemma {:induction false} SurvivorsCombineTheirMembers<C>(w: World<C>, calls: seq<Call<C>>, c: C)
    requires Known(w) && KnownCalls(w, calls) && KeepsPresent(w, calls)
    requires c in w.models && c in After(w, calls).models
    ensures Combined(w, Members(w, calls, c), After(w, calls).attributes[c])
    decreases |calls|
  {
    if calls == [] {
      assert Members(w, calls, c) == {c};
      Alone(w, c);
    } else {
      var call := calls[0];
      var w1 := Combine(w, call.0, call.1);
      CombineKeepsKnown(w, call.0, call.1);
      ModelsShrink(w1, calls[1..]);
      SurvivorsCombineTheirMembers(w1, calls[1..], c);
      MembersAfterCall(w, calls, c);
      if Proceeds(w, call.0, call.1) {
        OneMore(w, call, Members(w1, calls[1..], c), Members(w, calls, c), After(w, calls).attributes[c]);
      }
    }
  }

  lemma MembersAfterCall<C>(w: World<C>, calls: seq<Call<C>>, c: C)
    requires KnownCalls(w, calls) && calls != []
    requires calls[0].0 in w.models && calls[0].0 != calls[0].1
    requires forall d :: d in w.models ==> d in w.attributes
    ensures var w1 := Combine(w, calls[0].0, calls[0].1);
            var members := Members(w1, calls[1..], c);
            && members <= w1.attributes.Keys
            && (Proceeds(w, calls[0].0, calls[0].1) ==> calls[0].1 !in members)
            && Members(w, calls, c) ==
               if Proceeds(w, calls[0].0, calls[0].1) && calls[0].0 in members then members + {calls[0].1} else members
  {
    HomesFromNext(w, calls);
    WithoutMembers(w.models, calls[0].1);
    var w1 := Combine(w, calls[0].0, calls[0].1);
    var members, more := Members(w1, calls[1..], c), Members(w, calls, c);
    forall d | d in members
      ensures d in w1.attributes.Keys && d in more
    {
      assert d in w.models && d in w.attributes;
    }
    forall d | d in w.models
      ensures d in more <==> Next(w, calls[0], d) in members
    {
    }
  }

  /** Two runs that bring the same conversations together end alike. */
  lemma OrderDoesNotMatter<C>(w: World<C>, calls: seq<Call<C>>, others: seq<Call<C>>, c: C, d: C)
    requires Known(w) && KnownCalls(w, calls) && KnownCalls(w, others)
    requires KeepsPresent(w, calls) && KeepsPresent(w, others)
    requires c in w.models && c in After(w, calls).models && d in w.models && d in After(w, others).models
    requires Members(w, calls, c) == Members(w, others, d)
    ensures var a, b := After(w, calls).attributes[c], After(w, others).attributes[d];
            && Num(a.activeAt) == Num(b.activeAt)
            && Version(a.expireTimerVersion) == Version(b.expireTimerVersion)
            && Num(a.expireTimer) == Num(b.expireTimer)
            && a.data.Keys == b.data.Keys
  {
    var a, b := After(w, calls).attributes[c], After(w, others).attributes[d];
    var members := Members(w, calls, c);
    SurvivorsCombineTheirMembers(w, calls, c);
    SurvivorsCombineTheirMembers(w, others, d);
    LargestIsOne(members, ActiveAts(w), Num(a.activeAt), Num(b.activeAt));
    LargestIsOne(members, Versions(w), Version(a.expireTimerVersion), Version(b.expireTimerVersion));
    LeastIsOne(members, Timers(w), Num(a.expireTimer), Num(b.expireTimer));
    assert forall k :: k in a.data <==> k in b.data;
  }

  lemma LargestIsOne<C>(members: set<C>, f: map<C, nat>, v: nat, u: nat)
    requires members <= f.Keys && IsLargest(members, f, v) && IsLargest(members, f, u)
    ensures v == u
  {
  }

  lemma LeastIsOne<C>(members: set<C>, f: map<C, nat>, v: nat, u: nat)
    requires members <= f.Keys && IsLeastNonZero(members, f, v) && IsLeastNonZero(members, f, u)
    ensures v == u
  {
  }

  /** A combine that was made before changes nothing when it is made again, at
      any later time. */
  lemma {:induction false} RepeatingDoesNothing<C>(w: World<C>, calls: seq<Call<C>>, k: nat)
    requires Known(w) && KnownCalls(w, calls) && k < |calls|
    ensures var t := After(w, calls); Combine(t, calls[k].0, calls[k].1) == t
    decreases |calls|
  {
    var w1 := Combine(w, calls[0].0, calls[0].1);
    CombineKeepsKnown(w, calls[0].0, calls[0].1);
    if k > 0 {
      RepeatingDoesNothing(w1, calls[1..], k - 1);
    } else {
      WithoutMembers(w.models, calls[0].1);
      assert !Proceeds(w1, calls[0].0, calls[0].1);
      NeverProceeds(w1, calls[1..], calls[0]);
    }
  }

  lemma {:induction false} NeverProceeds<C>(w: World<C>, calls: seq<Call<C>>, call: Call<C>)
    requires Known(w) && KnownCalls(w, calls) && call.0 in w.attributes && call.1 in w.attributes
    requires !Proceeds(w, call.0, call.1)
    ensures !Proceeds(After(w, calls), call.0, call.1)
    decreases |calls|
  {
    if calls != [] {
      CombineKeepsKnown(w, calls[0].0, calls[0].1);
      KindsKept(w, calls[0]);
      NeverProceeds(Combine(w, calls[0].0, calls[0].1), calls[1..], call);
    }
  }

  lemma KindsKept<C>(w: World<C>, call: Call<C>)
    requires call.0 in w.attributes && call.1 in w.attributes
    ensures forall c :: c in w.attributes ==> Combine(w, call.0, call.1).attributes[c].kind == w.attributes[c].kind
  {
  }

  /** Three conversations, of which the last has a message. */
  const THREE := var a := Attributes(Private, None, None, None, map[]);
                 World(map[0 := a, 1 := a, 2 := a], [0, 1, 2], map["m" := 2])

  /** Combining 1 into 0 and then 2 into 1 leaves the message with 1, which is gone. */
  lemma StrandedMessage()
    ensures var calls := [(0, 1), (1, 2)];
            && Known(THREE) && MessagesLive(THREE) && KnownCalls(THREE, calls)
            && !MessagesLive(After(THREE, calls)) && "m" in After(THREE, calls).messages
  {
    var w := Combine(THREE, 0, 1);
    assert Known(THREE) && MessagesLive(THREE);
    assert w.messages["m"] == 2 && Proceeds(THREE, 0, 1);
    assert w.models == Without([0, 1, 2], 1);
    TwoCalls(THREE, (0, 1), (1, 2));
    CombineKeepsKnown(THREE, 0, 1);
    MessagesLiveExactlyWhen(THREE, 0, 1);
    WithoutMembers([0, 1, 2], 1);
    assert 2 in [0, 1, 2] && 1 !in w.models && 2 in w.models;
    assert Proceeds(w, 1, 2) && HasMessages(w, 2);
    MessagesLiveExactlyWhen(w, 1, 2);
    hide Known, MessagesLive, Without, After;
  }

  lemma TwoCalls<C>(w: World<C>, first: Call<C>, second: Call<C>)
    requires first.0 in w.attributes && first.1 in w.attributes && second.0 in w.attributes && second.1 in w.attributes
    ensures KnownCalls(w, [first, second])
    ensures second.0 in Combine(w, first.0, first.1).attributes && second.1 in Combine(w, first.0, first.1).attributes
    ensures After(w, [first, second]) == Combine(Combine(w, first.0, first.1), second.0, second.1)
  {
    hide Combine;
    assert [first, second][0] == first && [first, second][1] == second;
    assert [first, second][1..] == [second] && [second][1..] == [];
    var w1 := Combine(w, first.0, first.1);
    assert second.0 in w1.attributes.Keys && second.1 in w1.attributes.Keys;
    assert After(w, [first, second]) == After(w1, [second]);
  }
}
