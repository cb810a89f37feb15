/** Conversations, and the collection that indexes them. */
module Conversations {
  import opened Common
  import opened ContactIdentity
  import Lookups

  class ConversationModel {
    const id: string
    var serviceId: Option<ServiceId>
    var e164: Option<string>
    var pni: Option<string>

    function Ids(): Identity
      reads this`serviceId, this`e164, this`pni
    {
      Identity(serviceId, e164, pni)
    }

    constructor (id: string)
      ensures this.id == id && Ids() == NOBODY
    {
      this.id := id;
      serviceId, e164, pni := None, None, None;
    }
  }

  class ConversationCollection {
    var models: seq<ConversationModel>
    var byE164: map<string, ConversationModel>
    var byServiceId: map<ServiceId, ConversationModel>
    var byPni: map<string, ConversationModel>

    /** The identifiers of every conversation in the collection. */
    ghost function View(): map<ConversationModel, Identity>
      reads this`models, models
    {
      map c | c in models :: c.Ids()
    }

    ghost function Tables(): Lookups.Tables<ConversationModel>
      reads this
    {
      Lookups.Tables(byE164, byServiceId, byPni)
    }

    /** No two conversations share an identifier, and every lookup is right. */
    ghost predicate Valid()
      reads this, models
    {
      Unique(View()) && Lookups.Exact(Tables(), View())
    }

    method Get(v: Value) returns (found: Option<ConversationModel>)
      requires Valid()
      ensures IsMatch(View(), v, found)
    {
      Lookups.FindIsMatch(Tables(), View(), v);
      match v
      case AciValue(a) =>
        found := if Aci(a) in byServiceId then Some(byServiceId[Aci(a)]) else None;
      case E164Value(e) =>
        found := if e in byE164 then Some(byE164[e]) else None;
      case PniValue(p) =>
        found := if Pni(p) in byServiceId then Some(byServiceId[Pni(p)])
                 else if p in byPni then Some(byPni[p]) else None;
    }

    /** All identifiers of `c` are entered in the tables. */
    method EnterLookups(c: ConversationModel)
      modifies this`byE164, this`byServiceId, this`byPni
      ensures Tables() == Lookups.Enter(old(Tables()), c, c.Ids())
    {
      if c.e164.Some? { byE164 := byE164[c.e164.value := c]; }
      if c.serviceId.Some? { byServiceId := byServiceId[c.serviceId.value := c]; }
      if c.pni.Some? { byPni := byPni[c.pni.value := c]; }
    }

    method UpdateServiceId(c: ConversationModel, serviceId: Option<ServiceId>)
      requires c in models
      modifies this`byE164, this`byServiceId, this`byPni, c`serviceId
      ensures View() == old(View())[c := old(c.Ids()).(serviceId := serviceId)]
      ensures Tables() == if old(c.serviceId) == serviceId then old(Tables())
                          else Lookups.ServiceIdUpdated(old(Tables()), c, old(c.serviceId), old(c.Ids()).(serviceId := serviceId))
      ensures old(Valid() && Lookups.CanBecome(View(), c, c.Ids().(serviceId := serviceId))) ==> Valid()
    {
      ghost var y := c.Ids().(serviceId := serviceId);
      var was := c.serviceId;
      if was == serviceId {
        assert View()[c := y] == View();
        return;
      }
      if Valid() && Lookups.CanBecome(View(), c, y) {
        Lookups.UpdatedIsExact(Tables(), View(), c, y);
        Lookups.BecomingKeepsUnique(View(), c, y);
      }
      SetServiceId(c, serviceId);
    }

    /** The field is set, and the `idUpdated` handler runs. */
    method SetServiceId(c: ConversationModel, serviceId: Option<ServiceId>)
      requires c in models
      modifies this`byE164, this`byServiceId, this`byPni, c`serviceId
      ensures View() == old(View())[c := old(c.Ids()).(serviceId := serviceId)]
      ensures Tables() == Lookups.ServiceIdUpdated(old(Tables()), c, old(c.serviceId), old(c.Ids()).(serviceId := serviceId))
    {
      var was := c.serviceId;
      c.serviceId := serviceId;
      if was.Some? {
        byServiceId := byServiceId - {was.value};
      }
      EnterLookups(c);
      assert View() == old(View())[c := c.Ids()];
    }

    method UpdateE164(c: ConversationModel, e164: Option<string>)
      requires c in models
      modifies this`byE164, this`byServiceId, this`byPni, c`e164
      ensures View() == old(View())[c := old(c.Ids()).(e164 := e164)]
      ensures Tables() == if old(c.e164) == e164 then old(Tables())
                          else Lookups.E164Updated(old(Tables()), c, old(c.e164), old(c.Ids()).(e164 := e164))
      ensures old(Valid() && Lookups.CanBecome(View(), c, c.Ids().(e164 := e164))) ==> Valid()
    {
      ghost var y := c.Ids().(e164 := e164);
      var was := c.e164;
      if was == e164 {
        assert View()[c := y] == View();
        return;
      }
      if Valid() && Lookups.CanBecome(View(), c, y) {
        Lookups.UpdatedIsExact(Tables(), View(), c, y);
        Lookups.BecomingKeepsUnique(View(), c, y);
      }
      SetE164(c, e164);
    }

    /** The field is set, and the `idUpdated` handler runs. */
    method SetE164(c: ConversationModel, e164: Option<string>)
      requires c in models
      modifies this`byE164, this`byServiceId, this`byPni, c`e164
      ensures View() == old(View())[c := old(c.Ids()).(e164 := e164)]
      ensures Tables() == Lookups.E164Updated(old(Tables()), c, old(c.e164), old(c.Ids()).(e164 := e164))
    {
      var was := c.e164;
      c.e164 := e164;
      if was.Some? {
        byE164 := byE164 - {was.value};
      }
      EnterLookups(c);
      assert View() == old(View())[c := c.Ids()];
    }

    method UpdatePni(c: ConversationModel, pni: Option<string>)
      requires c in models
      modifies this`byE164, this`byServiceId, this`byPni, c`pni
      ensures View() == old(View())[c := old(c.Ids()).(pni := pni)]
      ensures Tables() == if old(c.pni) == pni then old(Tables())
                          else Lookups.PniUpdated(old(Tables()), c, old(c.pni), old(c.Ids()).(pni := pni))
      ensures old(Valid() && Lookups.CanBecome(View(), c, c.Ids().(pni := pni))) ==> Valid()
    {
      ghost var y := c.Ids().(pni := pni);
      var was := c.pni;
      if was == pni {
        assert View()[c := y] == View();
        return;
      }
      if Valid() && Lookups.CanBecome(View(), c, y) {
        Lookups.UpdatedIsExact(Tables(), View(), c, y);
        Lookups.BecomingKeepsUnique(View(), c, y);
      }
      SetPni(c, pni);
    }

    /** The field is set, and the `idUpdated` handler runs. */
    method SetPni(c: ConversationModel, pni: Option<string>)
      requires c in models
      modifies this`byE164, this`byServiceId, this`byPni, c`pni
      ensures View() == old(View())[c := old(c.Ids()).(pni := pni)]
      ensures Tables() == Lookups.PniUpdated(old(Tables()), c, old(c.pni), old(c.Ids()).(pni := pni))
    {
      var was := c.pni;
      c.pni := pni;
      if was.Some? {
        byPni := byPni - {was.value};
      }
      EnterLookups(c);
      assert View() == old(View())[c := c.Ids()];
    }

    method Add(c: ConversationModel)
      requires Valid() && c !in models
      requires Lookups.CanBecome(View(), c, c.Ids())
      modifies this
      ensures Valid() && models == old(models) + [c]
      ensures View() == old(View())[c := c.Ids()]
    {
      Lookups.AddedIsExact(Tables(), View(), c, c.Ids());
      Lookups.BecomingKeepsUnique(View(), c, c.Ids());
      EnterLookups(c);
      models := models + [c];
      assert View() == old(View())[c := c.Ids()];
    }
  }
}
