/** The model classes the repository's tests declare (test.js:4-21) and
    the behaviour those tests expect of them, stated for every host. */
module Scenarios {
  import opened Results
  import opened Props
  import opened JsValues
  import opened Attrs
  import opened Classes
  import opened KeyMapper
  import opened Ingestion
  import opened Serialization

  const Zero: JsValue := Num(Finite(0.0))

  const ClientFields: seq<FieldDecl> := [
    FieldDecl("name", ScalarField(StringType, None)),
    FieldDecl("customArray", ScalarField(JsonType, Some(Arr([])))),
    FieldDecl("customObject", ScalarField(JsonType, Some(Obj([]))))]

  const ProductFields: seq<FieldDecl> := [
    FieldDecl("name", ScalarField(StringType, None))]

  const OrderFields: seq<FieldDecl> := [
    FieldDecl("name", ScalarField(StringType, None)),
    FieldDecl("number", ScalarField(NumberType, Some(Zero))),
    FieldDecl("isValid", ScalarField(BooleanType, Some(Bool(false)))),
    FieldDecl("date", ScalarField(DateType, None)),
    FieldDecl("products", ToMany("Product")),
    FieldDecl("client", ToOne("Client"))]

  /** `Client`, `Product` and `Order`, each extending `Model`. */
  function Shop(): Registry {
    map[
      "Client" := ModelClass(["Model"], ClientFields),
      "Product" := ModelClass(["Model"], ProductFields),
      "Order" := ModelClass(["Model"], OrderFields)
    ]
  }

  const OrderKeys: seq<string> := ["id", "name", "number", "isValid", "date", "products", "client"]

  lemma OrderDeclarations()
    ensures "Order" in Shop() && Shop()["Order"] == ModelClass(["Model"], OrderFields)
    ensures DeclNames(OrderFields) == OrderKeys[1..]
    ensures Distinct(OrderKeys)
    ensures forall i :: 0 <= i < |OrderFields| ==> !ThrowingDefault(OrderFields[i])
  {
  }

  /** A new order: `id`, then the six declared fields, each container empty
      or holding its default. */
  lemma NewOrderShape(host: Host)
    ensures New(host, Shop(), "Order") == Ok(Model(["Order", "Model"], [IdField] + Slots(host, OrderFields)))
  {
    OrderDeclarations();
    assert Distinct(DeclNames(OrderFields)) by {
      forall i, j | 0 <= i < j < |OrderFields| ensures DeclNames(OrderFields)[i] != DeclNames(OrderFields)[j] {
        assert OrderKeys[i + 1] != OrderKeys[j + 1];
      }
    }
    forall i | 0 <= i < |OrderFields| ensures OrderFields[i].name != "id" {
      assert DeclNames(OrderFields)[i] == OrderKeys[i + 1];
      assert OrderKeys[0] != OrderKeys[i + 1];
    }
    NewShape(host, Shop(), "Order");
    assert ["Order"] + Shop()["Order"].ancestors == ["Order", "Model"];
  }

  /** A new order, container by container. */
  const FreshOrder: Model := Model(["Order", "Model"], [
    IdField,
    Entry("name", AttrSlot(Attr(StringType, None, Null))),
    Entry("number", AttrSlot(Attr(NumberType, Some(Zero), Zero))),
    Entry("isValid", AttrSlot(Attr(BooleanType, Some(Bool(false)), Bool(false)))),
    Entry("date", AttrSlot(Attr(DateType, None, Null))),
    Entry("products", HasManySlot(HasMany("Product", Many([])))),
    Entry("client", BelongsToSlot(BelongsTo("Client", None)))])

  lemma NewOrderIsFresh(host: Host)
    ensures New(host, Shop(), "Order") == Ok(FreshOrder)
  {
    NewOrderShape(host);
    OrderSlots(host);
    assert [IdField] + FreshOrder.fields[1..] == FreshOrder.fields;
  }

  lemma OrderSlots(host: Host)
    ensures Slots(host, OrderFields) == FreshOrder.fields[1..]
  {
    OrderDeclarations();
    DefaultsApplied(host);
    var ss := Slots(host, OrderFields);
    forall i | 0 <= i < |ss| ensures ss[i] == FreshOrder.fields[i + 1] {
      assert ss[i] == Entry(OrderFields[i].name, MakeSlot(host, OrderFields[i].kind).value);
    }
  }

  lemma FreshOrderKeys()
    ensures Keys(FreshOrder.fields) == OrderKeys
    ensures DistinctKeys(FreshOrder.fields)
  {
    var fs := FreshOrder.fields;
    assert Keys(fs) == OrderKeys;
    assert Distinct(OrderKeys);
    forall i, j | 0 <= i < j < |fs| ensures fs[i].key != fs[j].key {
      assert Keys(fs)[i] == OrderKeys[i];
      assert Keys(fs)[j] == OrderKeys[j];
    }
  }

  /** A new order reads its defaults: number 0, isValid false, no name,
      no client and no products. */
  lemma NewOrder(host: Host)
    ensures New(host, Shop(), "Order").Ok?
    ensures var o := New(host, Shop(), "Order").value;
      Keys(o.fields) == OrderKeys && DistinctKeys(o.fields) &&
      InstanceOf(o, "Order") && InstanceOf(o, "Model") &&
      Get(o, "number") == Zero && Get(o, "isValid") == Bool(false) &&
      Get(o, "name") == Null && Get(o, "client") == Null &&
      Get(o, "products") == HasManyValue([])
  {
    NewOrderIsFresh(host);
    FreshOrderKeys();
    FreshOrderAttrs();
    FreshOrderRelations();
  }

  lemma FreshOrderAttrs()
    ensures Get(FreshOrder, "name") == Null && Get(FreshOrder, "number") == Zero
    ensures Get(FreshOrder, "isValid") == Bool(false)
  {
    FreshOrderKeys();
    GetAt(FreshOrder, 1);
    GetAt(FreshOrder, 2);
    GetAt(FreshOrder, 3);
  }

  lemma FreshOrderRelations()
    ensures Get(FreshOrder, "products") == HasManyValue([]) && Get(FreshOrder, "client") == Null
  {
    FreshOrderKeys();
    GetAt(FreshOrder, 5);
    GetAt(FreshOrder, 6);
  }

  /** The order after `order.name = 'Test name'`. */
  const NamedOrder: Model := FreshOrder.(fields := FreshOrder.fields[1 := Entry("name", AttrSlot(Attr(StringType, None, Str("Test name"))))])

  lemma NameSet(host: Host)
    ensures Set(host, Shop(), FreshOrder, "name", Str("Test name")) == Ok(NamedOrder)
    ensures DistinctKeys(NamedOrder.fields)
  {
    FreshOrderKeys();
    NameAttrSet(host);
    SetInPlace(host, Shop(), FreshOrder, 1, Str("Test name"), NamedOrder.fields[1].val);
  }

  lemma NameAttrSet(host: Host)
    ensures SetSlot(host, Shop(), FreshOrder.fields[1].val, Str("Test name")) == Ok(NamedOrder.fields[1].val)
  {
    var a := Attr(StringType, None, Null);
    assert SetValue(host, a, Str("Test name")) == Ok(a.(value := Str("Test name")));
  }

  lemma NameCleared(host: Host)
    requires DistinctKeys(NamedOrder.fields)
    ensures Set(host, Shop(), NamedOrder, "name", Null) == Ok(FreshOrder)
  {
    NullClears(host, Attr(StringType, None, Str("Test name")));
    SetInPlace(host, Shop(), NamedOrder, 1, Null, FreshOrder.fields[1].val);
    assert NamedOrder.fields[1 := FreshOrder.fields[1]] == FreshOrder.fields;
  }

  /** Naming an order makes the name read back; setting it to null then
      returns the order to exactly its fresh state, where the name reads null
      and the number still reads its default. */
  lemma NameThenClear(host: Host)
    ensures var named := Set(host, Shop(), FreshOrder, "name", Str("Test name"));
      named.Ok? && Get(named.value, "name") == Str("Test name") &&
      var cleared := Set(host, Shop(), named.value, "name", Null);
      cleared == Ok(FreshOrder) && Get(cleared.value, "name") == Null &&
      Get(cleared.value, "number") == Zero
  {
    NameSet(host);
    NameCleared(host);
    GetAt(NamedOrder, 1);
    FreshOrderAttrs();
  }

  /** The order after `order.client = c`. */
  function LinkedOrder(c: Model): Model {
    FreshOrder.(fields := FreshOrder.fields[6 := Entry("client", BelongsToSlot(BelongsTo("Client", Some(c))))])
  }

  lemma ClientSet(host: Host, c: Model)
    requires InstanceOf(c, "Client")
    ensures Set(host, Shop(), FreshOrder, "client", Instance(c)) == Ok(LinkedOrder(c))
    ensures DistinctKeys(LinkedOrder(c).fields)
  {
    FreshOrderKeys();
    assert "Client" in Shop();
    SetInPlace(host, Shop(), FreshOrder, 6, Instance(c), LinkedOrder(c).fields[6].val);
  }

  lemma ClientCleared(host: Host, c: Model)
    requires DistinctKeys(LinkedOrder(c).fields)
    ensures Set(host, Shop(), LinkedOrder(c), "client", Null) == Ok(FreshOrder)
  {
    SetInPlace(host, Shop(), LinkedOrder(c), 6, Null, FreshOrder.fields[6].val);
    assert LinkedOrder(c).fields[6 := FreshOrder.fields[6]] == FreshOrder.fields;
  }

  /** Giving an order a client object keeps that very object; setting the
      client to null then returns the order to its fresh state. */
  lemma ClientThenClear(host: Host, c: Model)
    requires InstanceOf(c, "Client")
    ensures var linked := Set(host, Shop(), FreshOrder, "client", Instance(c));
      linked.Ok? && Get(linked.value, "client") == Instance(c) &&
      var cleared := Set(host, Shop(), linked.value, "client", Null);
      cleared == Ok(FreshOrder) && Get(cleared.value, "client") == Null
  {
    ClientSet(host, c);
    ClientCleared(host, c);
    GetAt(LinkedOrder(c), 6);
    FreshOrderRelations();
  }

  const OrderServerKeyList: seq<string> := ["id", "name", "number", "is_valid", "date", "products", "client"]

  /** The payload keys of an order: only `isValid` is renamed. */
  lemma OrderServerKeys()
    ensures ServerKeys(FreshOrder.fields) == OrderServerKeyList
    ensures Distinct(OrderServerKeyList)
  {
    DistinctOrderServerKeys();
    OrderServerKeyValues();
  }

  lemma DistinctOrderServerKeys()
    ensures Distinct(OrderServerKeyList)
  {
  }

  lemma OrderServerKeyValues()
    ensures ServerKeys(FreshOrder.fields) == OrderServerKeyList
  {
    FreshOrderKeys();
    OrderKeysMapped();
    ServerKeysOfNames(FreshOrder.fields, OrderKeys, OrderServerKeyList);
  }

  lemma OrderKeysMapped()
    ensures forall i :: 0 <= i < |OrderKeys| ==> ServerKey(OrderKeys[i]) == OrderServerKeyList[i]
  {
    forall i | 0 <= i < |OrderKeys| ensures ServerKey(OrderKeys[i]) == OrderServerKeyList[i] {
      if i == 0 { ServerKeyOfId(); }
      else if i == 1 { ServerKeyOfName(); }
      else if i == 2 { ServerKeyOfNumber(); }
      else if i == 3 { ServerKeyOfIsValid(); }
      else if i == 4 { ServerKeyOfDate(); }
      else if i == 5 { ServerKeyOfProducts(); }
      else { ServerKeyOfClient(); }
    }
  }

  lemma ServerKeysOfNames(fs: seq<Entry<Slot>>, names: seq<string>, keys: seq<string>)
    requires Keys(fs) == names && |keys| == |names|
    requires forall i :: 0 <= i < |names| ==> ServerKey(names[i]) == keys[i]
    ensures ServerKeys(fs) == keys
  {
    forall i | 0 <= i < |fs| ensures ServerKeys(fs)[i] == keys[i] {
      assert fs[i].key == names[i];
    }
  }

  lemma ServerKeyOfName() ensures ServerKey("name") == "name" { LowerCaseNameUnchanged("name"); }
  lemma ServerKeyOfNumber() ensures ServerKey("number") == "number" { LowerCaseNameUnchanged("number"); }
  lemma ServerKeyOfDate() ensures ServerKey("date") == "date" { LowerCaseNameUnchanged("date"); }
  lemma ServerKeyOfProducts() ensures ServerKey("products") == "products" { LowerCaseNameUnchanged("products"); }
  lemma ServerKeyOfClient() ensures ServerKey("client") == "client" { LowerCaseNameUnchanged("client"); }

  lemma IncomingFromOneKey(k: string, v: JsValue, key: string)
    ensures Incoming(Obj([Entry(k, v)]), key) == if key == k && !IsNullish(v) then Some(v) else None
  {
  }

  const NumberPayload: JsValue := Obj([Entry("number", Str("123"))])

  /** The order after `pushPayload({number: '123'})`. */
  const NumberedOrder: Model := FreshOrder.(fields := FreshOrder.fields[2 := Entry("number", AttrSlot(Attr(NumberType, Some(Zero), Num(Finite(123.0)))))])

  lemma OnlyNumberIncoming()
    ensures forall j :: 0 <= j < |FreshOrder.fields| ==>
      Incoming(NumberPayload, ServerKey(FreshOrder.fields[j].key)) == if j == 2 then Some(Str("123")) else None
  {
    OrderServerKeys();
    forall j | 0 <= j < |FreshOrder.fields|
      ensures Incoming(NumberPayload, ServerKey(FreshOrder.fields[j].key)) == if j == 2 then Some(Str("123")) else None
    {
      assert ServerKey(FreshOrder.fields[j].key) == OrderServerKeyList[j];
      IncomingFromOneKey("number", Str("123"), OrderServerKeyList[j]);
    }
  }

  lemma NumberWriteAccepted(host: Host)
    requires ReadsDecimalNumerals(host)
    ensures SetSlot(host, Shop(), FreshOrder.fields[2].val, Str("123")) == Ok(NumberedOrder.fields[2].val)
  {
    NumberSlotAccepts(host, Shop(), Attr(NumberType, Some(Zero), Zero));
  }

  lemma NumberSlotAccepts(host: Host, reg: Registry, a: Attr)
    requires a.kind == NumberType && ReadsDecimalNumerals(host)
    ensures SetSlot(host, reg, AttrSlot(a), Str("123")) == Ok(AttrSlot(a.(value := Num(Finite(123.0)))))
  {
    NumericStringStoresNumber(host, a);
  }

  lemma NumberIngested(host: Host)
    requires ReadsDecimalNumerals(host)
    ensures PushPayload(host, Shop(), FreshOrder, NumberPayload) == Ok(NumberedOrder)
  {
    NumberWriteAccepted(host);
    OnlyNumberIncoming();
    assert WritesSucceed(host, Shop(), FreshOrder, NumberPayload, 0);
    PushPayloadSucceeds(host, Shop(), FreshOrder, NumberPayload);
    NumberIngestedFields(host, PushPayload(host, Shop(), FreshOrder, NumberPayload).value);
  }

  lemma NumberIngestedFields(host: Host, r: Model)
    requires ReadsDecimalNumerals(host)
    requires PushPayload(host, Shop(), FreshOrder, NumberPayload) == Ok(r)
    ensures r == NumberedOrder
  {
    NumberWriteAccepted(host);
    OnlyNumberIncoming();
    OnlyOneWritten(host, Shop(), FreshOrder, NumberPayload, 2, NumberedOrder.fields[2].val, r);
    NumberedIsWritten();
  }

  lemma NumberedIsWritten()
    ensures Written(FreshOrder, 2, NumberedOrder.fields[2].val) == NumberedOrder
  {
  }

  /** `number: "123"` in a payload is read as the number 123, and nothing
      else about the order changes. */
  lemma PayloadNumber(host: Host)
    requires ReadsDecimalNumerals(host)
    ensures var p := PushPayload(host, Shop(), FreshOrder, NumberPayload);
      p.Ok? && Get(p.value, "number") == Num(Finite(123.0)) &&
      forall j :: 0 <= j < |FreshOrder.fields| && j != 2 ==> p.value.fields[j] == FreshOrder.fields[j]
  {
    NumberIngested(host);
    FreshOrderKeys();
    assert Keys(NumberedOrder.fields) == Keys(FreshOrder.fields);
    GetAt(NumberedOrder, 2);
  }

  const FreshOrderJson: seq<Entry<JsValue>> := [
    Entry("id", Null), Entry("name", Null), Entry("number", Zero),
    Entry("is_valid", Bool(false)), Entry("date", Null),
    Entry("products", Arr([])), Entry("client", Null)]

  lemma FreshOrderValues(host: Host)
    ensures forall i :: 0 <= i < |FreshOrder.fields| ==>
      SerializeValue(host, SlotValue(FreshOrder.fields[i].val)) == FreshOrderJson[i].val
  {
    assert SerializeMembers(host, []) == [];
  }

  lemma FreshOrderEntries(host: Host)
    ensures Entries(host, FreshOrder.fields) == FreshOrderJson
  {
    OrderServerKeys();
    FreshOrderValues(host);
    var es := Entries(host, FreshOrder.fields);
    forall i | 0 <= i < |es| ensures es[i] == FreshOrderJson[i] {
      assert ServerKeys(FreshOrder.fields)[i] == OrderServerKeyList[i];
    }
  }

  /** A new order serializes to its defaults under the payload keys, with
      an empty array for its products and null for everything unset. */
  lemma FreshOrderSerializes(host: Host)
    ensures Serialize(host, FreshOrder, None) == Obj(FreshOrderJson)
  {
    OrderServerKeys();
    SerializedShape(host, FreshOrder);
    FreshOrderEntries(host);
  }

  // A client given as a payload (test.js:58-63, 66, 72).

  const ClientKeys: seq<string> := ["id", "name", "customArray", "customObject"]

  /** A new client, container by container. */
  const FreshClient: Model := Model(["Client", "Model"], [
    IdField,
    Entry("name", AttrSlot(Attr(StringType, None, Null))),
    Entry("customArray", AttrSlot(Attr(JsonType, Some(Arr([])), Arr([])))),
    Entry("customObject", AttrSlot(Attr(JsonType, Some(Obj([])), Obj([]))))])

  /** The client part of the payloads of test.js, without its json fields. */
  const ClientPayload: JsValue := Obj([Entry("id", Num(Finite(1.0))), Entry("name", Str("Client1"))])

  lemma ClientDeclarations()
    ensures "Client" in Shop() && Shop()["Client"] == ModelClass(["Model"], ClientFields)
    ensures DeclNames(ClientFields) == ClientKeys[1..]
    ensures Distinct(ClientKeys)
    ensures forall i :: 0 <= i < |ClientFields| ==> !ThrowingDefault(ClientFields[i])
  {
  }

  lemma NewClientIsFresh(host: Host)
    ensures New(host, Shop(), "Client") == Ok(FreshClient)
  {
    NewClientShape(host);
    ClientSlots(host);
    assert [IdField] + FreshClient.fields[1..] == FreshClient.fields;
  }

  lemma NewClientShape(host: Host)
    ensures New(host, Shop(), "Client") == Ok(Model(["Client", "Model"], [IdField] + Slots(host, ClientFields)))
  {
    ClientDeclarations();
    assert Distinct(DeclNames(ClientFields)) by {
      forall i, j | 0 <= i < j < |ClientFields| ensures DeclNames(ClientFields)[i] != DeclNames(ClientFields)[j] {
        assert ClientKeys[i + 1] != ClientKeys[j + 1];
      }
    }
    forall i | 0 <= i < |ClientFields| ensures ClientFields[i].name != "id" {
      assert DeclNames(ClientFields)[i] == ClientKeys[i + 1];
      assert ClientKeys[0] != ClientKeys[i + 1];
    }
    NewShape(host, Shop(), "Client");
    assert ["Client"] + Shop()["Client"].ancestors == ["Client", "Model"];
  }

  lemma ClientSlots(host: Host)
    ensures Slots(host, ClientFields) == FreshClient.fields[1..]
  {
    ClientDeclarations();
    var ss := Slots(host, ClientFields);
    forall i | 0 <= i < |ss| ensures ss[i] == FreshClient.fields[i + 1] {
      assert ss[i] == Entry(ClientFields[i].name, MakeSlot(host, ClientFields[i].kind).value);
    }
  }

  lemma FreshClientKeys()
    ensures Keys(FreshClient.fields) == ClientKeys
    ensures DistinctKeys(FreshClient.fields)
    ensures forall j :: 0 <= j < |FreshClient.fields| ==> FreshClient.fields[j].val.AttrSlot?
  {
    var fs := FreshClient.fields;
    assert Keys(fs) == ClientKeys;
    assert Distinct(ClientKeys);
    forall i, j | 0 <= i < j < |fs| ensures fs[i].key != fs[j].key {
      assert Keys(fs)[i] == ClientKeys[i];
      assert Keys(fs)[j] == ClientKeys[j];
    }
  }

  lemma ClientNameIncoming()
    ensures Incoming(ClientPayload, ServerKey(FreshClient.fields[1].key)) == Some(Str("Client1"))
  {
    ServerKeyOfName();
    assert Find(ClientPayload.props, "name") == Some(1);
  }

  /** A new client that ingests the payload reads its name. */
  lemma ClientIngested(host: Host)
    ensures PushPayload(host, Shop(), FreshClient, ClientPayload).Ok?
    ensures Get(PushPayload(host, Shop(), FreshClient, ClientPayload).value, "name") == Str("Client1")
  {
    FreshClientKeys();
    ConvertiblePayloadAccepted(host, Shop(), FreshClient, ClientPayload.props, 0);
    PushPayloadSucceeds(host, Shop(), FreshClient, ClientPayload);
    ClientNameIncoming();
    TextIngested(host, Shop(), FreshClient, ClientPayload, 1, "Client1");
  }

  lemma ClientRelationAdopts(host: Host)
    ensures PushPayload(host, Shop(), FreshClient, ClientPayload).Ok?
    ensures var c := PushPayload(host, Shop(), FreshClient, ClientPayload).value;
      SetSlot(host, Shop(), FreshOrder.fields[6].val, ClientPayload) == Ok(BelongsToSlot(BelongsTo("Client", Some(c))))
  {
    ClientIngested(host);
    NewClientIsFresh(host);
    assert !IsInstanceOf(ClientPayload, "Client");
    PayloadBuildsOne(host, Shop(), FreshOrder.fields[6].val.one, ClientPayload, FreshClient,
      PushPayload(host, Shop(), FreshClient, ClientPayload).value);
  }

  /** `order.client = {id: 1, name: 'Client1'}` stores a new `Client` that
      has ingested the object, and its name reads back. */
  lemma ClientFromPayload(host: Host)
    ensures var r := Set(host, Shop(), FreshOrder, "client", ClientPayload);
      r.Ok? && Get(r.value, "client").Instance? &&
      InstanceOf(Get(r.value, "client").model, "Client") &&
      Get(Get(r.value, "client").model, "name") == Str("Client1")
  {
    ClientRelationAdopts(host);
    ClientIngested(host);
    var c := PushPayload(host, Shop(), FreshClient, ClientPayload).value;
    var s := BelongsToSlot(BelongsTo("Client", Some(c)));
    FreshOrderKeys();
    SetInPlace(host, Shop(), FreshOrder, 6, ClientPayload, s);
    GetAt(FreshOrder.(fields := FreshOrder.fields[6 := Entry("client", s)]), 6);
    assert InstanceOf(c, "Client") by { NewClientIsFresh(host); }
  }
}
