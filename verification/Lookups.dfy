/** The lookup tables of the conversation collection: by phone number, by
    service id and by PNI.  They are maintained one field at a time, and are
    exact as long as no two conversations share an identifier. */
module Lookups {
  import opened Common
  import opened ContactIdentity

  datatype Tables<C> = Tables(
    byE164: map<string, C>,
    byServiceId: map<ServiceId, C>,
    byPni: map<string, C>)

  /** Every entry leads to a holder of its key, and every key held has an entry. */
  ghost predicate TableExact<K, C>(t: map<K, C>, slots: map<C, Option<K>>) {
    && (forall k :: k in t ==> t[k] in slots && slots[t[k]] == Some(k))
    && (forall c :: c in slots && slots[c].Some? ==> slots[c].value in t)
  }

  ghost function E164Slots<C>(convs: map<C, Identity>): map<C, Option<string>> {
    map c | c in convs :: convs[c].e164
  }

  ghost function ServiceIdSlots<C>(convs: map<C, Identity>): map<C, Option<ServiceId>> {
    map c | c in convs :: convs[c].serviceId
  }

  ghost function PniSlots<C>(convs: map<C, Identity>): map<C, Option<string>> {
    map c | c in convs :: convs[c].pni
  }

  ghost predicate Exact<C>(l: Tables<C>, convs: map<C, Identity>) {
    && TableExact(l.byE164, E164Slots(convs))
    && TableExact(l.byServiceId, ServiceIdSlots(convs))
    && TableExact(l.byPni, PniSlots(convs))
  }

  function Put<K, C>(t: map<K, C>, k: Option<K>, c: C): map<K, C> {
    if k.Some? then t[k.value := c] else t
  }

  /** Entering all identifiers of one conversation. */
  function Enter<C>(l: Tables<C>, c: C, x: Identity): Tables<C> {
    Tables(Put(l.byE164, x.e164, c), Put(l.byServiceId, x.serviceId, c), Put(l.byPni, x.pni, c))
  }

  function Without<K, V>(m: map<K, V>, k: Option<K>): map<K, V> {
    if k.Some? then m - {k.value} else m
  }

  /** The `idUpdated` handler: drop the old entry of the one field that changed,
      then enter the conversation anew. */
  function ServiceIdUpdated<C>(l: Tables<C>, c: C, was: Option<ServiceId>, x: Identity): Tables<C> {
    Enter(l.(byServiceId := Without(l.byServiceId, was)), c, x)
  }

  function E164Updated<C>(l: Tables<C>, c: C, was: Option<string>, x: Identity): Tables<C> {
    Enter(l.(byE164 := Without(l.byE164, was)), c, x)
  }

  function PniUpdated<C>(l: Tables<C>, c: C, was: Option<string>, x: Identity): Tables<C> {
    Enter(l.(byPni := Without(l.byPni, was)), c, x)
  }

  function Find<C>(l: Tables<C>, v: Value): Option<C> {
    match v
    case AciValue(a) => if Aci(a) in l.byServiceId then Some(l.byServiceId[Aci(a)]) else None
    case E164Value(e) => if e in l.byE164 then Some(l.byE164[e]) else None
    case PniValue(p) =>
      if Pni(p) in l.byServiceId then Some(l.byServiceId[Pni(p)])
      else if p in l.byPni then Some(l.byPni[p]) else None
  }

  /** With exact tables a lookup finds the holder, if there is one. */
  lemma FindIsMatch<C>(l: Tables<C>, convs: map<C, Identity>, v: Value)
    requires Exact(l, convs)
    ensures IsMatch(convs, v, Find(l, v))
  {
    forall c | c in convs && Holds(convs[c], v)
      ensures Find(l, v).Some?
    {
      assert E164Slots(convs)[c] == convs[c].e164;
      assert ServiceIdSlots(convs)[c] == convs[c].serviceId;
      assert PniSlots(convs)[c] == convs[c].pni;
    }
  }

  /** `c` may take on `y`: nobody else holds any of its identifiers. */
  ghost predicate CanBecome<C>(convs: map<C, Identity>, c: C, y: Identity) {
    forall d :: d in convs && d != c ==> Disjoint(y, convs[d]) && Disjoint(convs[d], y)
  }

  lemma BecomingKeepsUnique<C>(convs: map<C, Identity>, c: C, y: Identity)
    requires Unique(convs) && CanBecome(convs, c, y)
    ensures Unique(convs[c := y])
  {
  }

  lemma TableUpdated<K, C>(t: map<K, C>, slots: map<C, Option<K>>, c: C, k: Option<K>)
    requires TableExact(t, slots) && c in slots
    requires forall d :: d in slots && d != c && slots[d].Some? ==> slots[d] != k && slots[d] != slots[c]
    ensures TableExact(Put(Without(t, slots[c]), k, c), slots[c := k])
  {
  }

  lemma TableEntered<K, C>(t: map<K, C>, slots: map<C, Option<K>>, c: C, k: Option<K>)
    requires TableExact(t, slots) && (c in slots ==> slots[c] == k)
    requires forall d :: d in slots && d != c && slots[d].Some? ==> slots[d] != k
    ensures TableExact(Put(t, k, c), slots[c := k])
  {
  }

  lemma SlotsUpdated<C>(convs: map<C, Identity>, c: C, y: Identity)
    ensures E164Slots(convs[c := y]) == E164Slots(convs)[c := y.e164]
    ensures ServiceIdSlots(convs[c := y]) == ServiceIdSlots(convs)[c := y.serviceId]
    ensures PniSlots(convs[c := y]) == PniSlots(convs)[c := y.pni]
  {
  }

  lemma OthersDiffer<C>(convs: map<C, Identity>, c: C, y: Identity)
    requires CanBecome(convs, c, y)
    ensures forall d :: d in convs && d != c ==>
              && (convs[d].e164.Some? ==> convs[d].e164 != y.e164)
              && (convs[d].serviceId.Some? ==> convs[d].serviceId != y.serviceId)
              && (convs[d].pni.Some? ==> convs[d].pni != y.pni)
  {
    assert forall d :: d in convs && d != c ==> Disjoint(convs[d], y);
  }

  /** Changing one field of a conversation, and telling the tables, keeps them
      exact. */
  lemma UpdatedIsExact<C>(l: Tables<C>, convs: map<C, Identity>, c: C, y: Identity)
    requires Exact(l, convs) && Unique(convs) && c in convs && CanBecome(convs, c, y)
    ensures var x := convs[c];
            && (x.(serviceId := y.serviceId) == y ==> Exact(ServiceIdUpdated(l, c, x.serviceId, y), convs[c := y]))
            && (x.(e164 := y.e164) == y ==> Exact(E164Updated(l, c, x.e164, y), convs[c := y]))
            && (x.(pni := y.pni) == y ==> Exact(PniUpdated(l, c, x.pni, y), convs[c := y]))
  {
    SlotsUpdated(convs, c, y);
    OthersDiffer(convs, c, y);
    assert CanBecome(convs, c, convs[c]);
    OthersDiffer(convs, c, convs[c]);
    var x := convs[c];
    TableUpdated(l.byE164, E164Slots(convs), c, y.e164);
    TableUpdated(l.byServiceId, ServiceIdSlots(convs), c, y.serviceId);
    TableUpdated(l.byPni, PniSlots(convs), c, y.pni);
    if x.e164 == y.e164 { TableEntered(l.byE164, E164Slots(convs), c, y.e164); }
    if x.serviceId == y.serviceId { TableEntered(l.byServiceId, ServiceIdSlots(convs), c, y.serviceId); }
    if x.pni == y.pni { TableEntered(l.byPni, PniSlots(convs), c, y.pni); }
  }

  lemma AddedIsExact<C>(l: Tables<C>, convs: map<C, Identity>, c: C, y: Identity)
    requires Exact(l, convs) && c !in convs && CanBecome(convs, c, y)
    ensures Exact(Enter(l, c, y), convs[c := y])
  {
    SlotsUpdated(convs, c, y);
    OthersDiffer(convs, c, y);
    TableEntered(l.byE164, E164Slots(convs), c, y.e164);
    TableEntered(l.byServiceId, ServiceIdSlots(convs), c, y.serviceId);
    TableEntered(l.byPni, PniSlots(convs), c, y.pni);
  }

  // ------------------------------------------- the three setters of one change

  /** A change is made field by field; every state on the way is unique too. */
  lemma ChangeInSteps<C>(convs: map<C, Identity>, c: C, y: Identity)
    requires Unique(convs) && c in convs && CanBecome(convs, c, y)
    ensures CanBecome(convs, c, convs[c].(serviceId := y.serviceId))
    ensures CanBecome(convs, c, convs[c].(serviceId := y.serviceId, e164 := y.e164))
  {
    forall d | d in convs && d != c
      ensures var x1 := convs[c].(serviceId := y.serviceId);
              var x2 := x1.(e164 := y.e164);
              && Disjoint(x1, convs[d]) && Disjoint(convs[d], x1)
              && Disjoint(x2, convs[d]) && Disjoint(convs[d], x2)
    {
      assert Disjoint(convs[c], convs[d]) && Disjoint(convs[d], convs[c]);
    }
  }

  lemma CanBecomeFrom<C>(convs: map<C, Identity>, c: C, x: Identity, y: Identity)
    requires CanBecome(convs, c, y)
    ensures CanBecome(convs[c := x], c, y)
  {
  }

  lemma UniqueMeansCanBecome<C>(convs: map<C, Identity>, c: C, y: Identity)
    requires Unique(convs[c := y])
    ensures CanBecome(convs, c, y)
  {
    var next := convs[c := y];
    assert forall d :: d in convs && d != c ==> d in next && next[d] == convs[d];
    assert forall d :: d in next && d != c ==> Disjoint(next[c], next[d]) && Disjoint(next[d], next[c]);
  }

  lemma SetCanBecome<C>(convs: map<C, Identity>, c: C, v: Value)
    requires Unique(convs) && c in convs
    requires forall d :: d in convs && d != c ==> !Holds(convs[d], v)
    ensures CanBecome(convs, c, ApplyChange(convs[c], SetTo(v)))
  {
    SetKeepsUnique(convs, c, v);
    UniqueMeansCanBecome(convs, c, ApplyChange(convs[c], SetTo(v)));
  }

  lemma ClearCanBecome<C>(convs: map<C, Identity>, c: C, v: Value, pni: Option<string>)
    requires Unique(convs) && c in convs
    ensures CanBecome(convs, c, ApplyChange(convs[c], ClearOn(convs[c], v, pni)))
  {
    ClearKeepsUnique(convs, c, v, pni);
    UniqueMeansCanBecome(convs, c, ApplyChange(convs[c], ClearOn(convs[c], v, pni)));
  }
}
