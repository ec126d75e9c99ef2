/** Serialization (`Model.serialize`, index.js:160-188): every property is
    written under its payload key; model objects and has-many collections
    are serialized recursively (without the caller's serializer), dates are
    formatted, and everything else is copied. */
module Serialization {
  import opened Results
  import opened Props
  import opened JsValues
  import opened KeyMapper
  import opened Conversions
  import opened Classes
  import opened Ingestion

  /** The payload keys of the properties, in order. */
  function ServerKeys(fs: seq<Entry<Slot>>): (ks: seq<string>)
    ensures |ks| == |fs|
    ensures forall i :: 0 <= i < |fs| ==> ks[i] == ServerKey(fs[i].key)
  {
    seq(|fs|, i requires 0 <= i < |fs| => ServerKey(fs[i].key))
  }

  /** `m.serialize(serializer)`. */
  function Serialize(host: Host, m: Model, serializer: Option<JsValue -> JsValue>): (r: JsValue)
    ensures serializer.None? ==> r.Obj? && Keys(r.props) == AddKeys([], ServerKeys(m.fields))
    decreases ModelSize(m), 2
  {
    var out := Obj(SerializeFields(host, m.fields, []));
    if serializer.Some? then serializer.value(out) else out
  }

  /** The loop over the properties: each result is assigned to the output
      object under the property's payload key. */
  function SerializeFields(host: Host, fs: seq<Entry<Slot>>, acc: seq<Entry<JsValue>>): (r: seq<Entry<JsValue>>)
    ensures Keys(r) == AddKeys(Keys(acc), ServerKeys(fs))
    decreases FieldsSize(fs), 1
  {
    if |fs| == 0 then acc
    else
      SlotValueSmaller(fs[0].val);
      var v := SerializeValue(host, SlotValue(fs[0].val));
      assert ServerKeys(fs)[1..] == ServerKeys(fs[1..]);
      SerializeFields(host, fs[1..], Put(acc, ServerKey(fs[0].key), v))
  }

  /** The serialized form of one property's value. */
  function SerializeValue(host: Host, v: JsValue): JsValue
    decreases SizeOf(v), 0
  {
    match v
    case Instance(x) => Serialize(host, x, None)
    case HasManyValue(ms) => Arr(SerializeMembers(host, ms))
    case Date(d) => Str(host.formatDate(d))
    case _ => v
  }

  /** The `forEach` over a has-many collection, in order. */
  function SerializeMembers(host: Host, ms: seq<Model>): (r: seq<JsValue>)
    ensures |r| == |ms|
    decreases MembersSize(ms), 3
  {
    if |ms| == 0 then []
    else [Serialize(host, ms[0], None)] + SerializeMembers(host, ms[1..])
  }

  // Properties of serialization.

  /** The serialized entry of each property, in order: the reference shape
      of the output when no two properties share a payload key. */
  function Entries(host: Host, fs: seq<Entry<Slot>>): (r: seq<Entry<JsValue>>)
    ensures |r| == |fs|
  {
    seq(|fs|, i requires 0 <= i < |fs| => Entry(ServerKey(fs[i].key), SerializeValue(host, SlotValue(fs[i].val))))
  }

  lemma SerializeFieldsStep(host: Host, fs: seq<Entry<Slot>>, acc: seq<Entry<JsValue>>)
    requires |fs| > 0 && ServerKey(fs[0].key) !in Keys(acc)
    ensures SerializeFields(host, fs, acc) ==
      SerializeFields(host, fs[1..], acc + [Entries(host, fs)[0]])
  {
    PutNew(acc, ServerKey(fs[0].key), SerializeValue(host, SlotValue(fs[0].val)));
  }

  lemma TailKeysFresh(fs: seq<Entry<Slot>>, acc: seq<Entry<JsValue>>, e: Entry<JsValue>)
    requires |fs| > 0 && e.key == ServerKey(fs[0].key)
    requires Distinct(ServerKeys(fs))
    requires forall i :: 0 <= i < |fs| ==> ServerKey(fs[i].key) !in Keys(acc)
    ensures Distinct(ServerKeys(fs[1..]))
    ensures forall i :: 0 <= i < |fs[1..]| ==> ServerKey(fs[1..][i].key) !in Keys(acc + [e])
  {
    assert ServerKeys(fs)[1..] == ServerKeys(fs[1..]);
    forall i | 0 <= i < |fs[1..]|
      ensures ServerKey(fs[1..][i].key) !in Keys(acc + [e])
    {
      assert ServerKeys(fs)[0] != ServerKeys(fs)[i + 1];
      assert Keys(acc + [e]) == Keys(acc) + [e.key];
    }
  }

  lemma EntriesCons(host: Host, fs: seq<Entry<Slot>>, acc: seq<Entry<JsValue>>)
    requires |fs| > 0
    ensures acc + [Entries(host, fs)[0]] + Entries(host, fs[1..]) == acc + Entries(host, fs)
  {
    assert Entries(host, fs) == [Entries(host, fs)[0]] + Entries(host, fs[1..]);
  }

  lemma {:induction false} SerializeFieldsAppends(host: Host, fs: seq<Entry<Slot>>, acc: seq<Entry<JsValue>>)
    requires Distinct(ServerKeys(fs))
    requires forall i :: 0 <= i < |fs| ==> ServerKey(fs[i].key) !in Keys(acc)
    ensures SerializeFields(host, fs, acc) == acc + Entries(host, fs)
    decreases |fs|
  {
    if |fs| > 0 {
      var e := Entries(host, fs)[0];
      SerializeFieldsStep(host, fs, acc);
      TailKeysFresh(fs, acc, e);
      SerializeFieldsAppends(host, fs[1..], acc + [e]);
      EntriesCons(host, fs, acc);
    } else {
      assert acc + Entries(host, fs) == acc;
    }
  }

  /** When no two properties share a payload key, the output has exactly
      one entry per property, in property order: the payload key of the
      property and its serialized value. */
  lemma SerializedShape(host: Host, m: Model)
    requires Distinct(ServerKeys(m.fields))
    ensures Serialize(host, m, None) == Obj(Entries(host, m.fields))
  {
    SerializeFieldsAppends(host, m.fields, []);
  }

  /** Properties that share a payload key give one output entry. It stands
      where the first of them put it, after the distinct payload keys of
      the properties before that one, and holds the serialized value of the
      last of them. */
  lemma SharedKeyKeepsLast(host: Host, m: Model, i: nat, j: nat)
    requires i <= j < |m.fields|
    requires ServerKey(m.fields[i].key) == ServerKey(m.fields[j].key)
    requires forall l :: 0 <= l < i ==> ServerKey(m.fields[l].key) != ServerKey(m.fields[i].key)
    requires forall l :: j < l < |m.fields| ==> ServerKey(m.fields[l].key) != ServerKey(m.fields[j].key)
    ensures Serialize(host, m, None).Obj? && DistinctKeys(Serialize(host, m, None).props)
    ensures Find(Serialize(host, m, None).props, ServerKey(m.fields[j].key))
      == Some(|AddKeys([], ServerKeys(m.fields[..i]))|)
    ensures var out := Serialize(host, m, None).props;
      |AddKeys([], ServerKeys(m.fields[..i]))| < |out| &&
      out[|AddKeys([], ServerKeys(m.fields[..i]))|].val == SerializeValue(host, SlotValue(m.fields[j].val))
  {
    SerializeFieldsDistinct(host, m.fields, []);
    FirstWritePosition(host, m.fields, i);
    LastWriteValue(host, m.fields, [], j);
  }

  lemma {:induction false} SerializeFieldsDistinct(host: Host, fs: seq<Entry<Slot>>, acc: seq<Entry<JsValue>>)
    requires DistinctKeys(acc)
    ensures DistinctKeys(SerializeFields(host, fs, acc))
    decreases |fs|
  {
    if |fs| > 0 {
      SerializeFieldsUnfold(host, fs, acc);
      SerializeFieldsDistinct(host, fs[1..], Put(acc, ServerKey(fs[0].key), SerializeValue(host, SlotValue(fs[0].val))));
    }
  }

  /** The first property with a given payload key puts it after the
      distinct payload keys of the properties before it. */
  lemma FirstWritePosition(host: Host, fs: seq<Entry<Slot>>, i: nat)
    requires i < |fs|
    requires forall l :: 0 <= l < i ==> ServerKey(fs[l].key) != ServerKey(fs[i].key)
    ensures Find(SerializeFields(host, fs, []), ServerKey(fs[i].key)) == Some(|AddKeys([], ServerKeys(fs[..i]))|)
  {
    var k := ServerKey(fs[i].key);
    var r := SerializeFields(host, fs, []);
    assert ServerKeys(fs)[..i] == ServerKeys(fs[..i]);
    AddKeysFirst(ServerKeys(fs), i);
    forall l | 0 <= l < |AddKeys([], ServerKeys(fs[..i]))|
      ensures r[l].key != k
    {
      assert Keys(r)[l] == r[l].key;
    }
    FindFirst(r, |AddKeys([], ServerKeys(fs[..i]))|, k);
  }

  /** The last property with a given payload key decides its value. */
  lemma LastWriteValue(host: Host, fs: seq<Entry<Slot>>, acc: seq<Entry<JsValue>>, j: nat)
    requires j < |fs|
    requires forall l :: j < l < |fs| ==> ServerKey(fs[l].key) != ServerKey(fs[j].key)
    ensures var r := SerializeFields(host, fs, acc);
      Find(r, ServerKey(fs[j].key)).Some? &&
      r[Find(r, ServerKey(fs[j].key)).value].val == SerializeValue(host, SlotValue(fs[j].val))
  {
    var ws := Entries(host, fs);
    SerializeFieldsPutsAll(host, fs, acc);
    assert forall l :: j < l < |ws| ==> ws[l].key != ws[j].key;
    PutAllLast(acc, ws, j);
  }

  /** The loop of `serialize` assigns each property's entry in turn. */
  lemma {:induction false} SerializeFieldsPutsAll(host: Host, fs: seq<Entry<Slot>>, acc: seq<Entry<JsValue>>)
    ensures SerializeFields(host, fs, acc) == PutAll(acc, Entries(host, fs))
    decreases |fs|
  {
    if |fs| > 0 {
      var ws := Entries(host, fs);
      SerializeFieldsUnfold(host, fs, acc);
      EntriesTail(host, fs);
      SerializeFieldsPutsAll(host, fs[1..], Put(acc, ws[0].key, ws[0].val));
    }
  }

  lemma EntriesTail(host: Host, fs: seq<Entry<Slot>>)
    requires |fs| > 0
    ensures Entries(host, fs)[0] == Entry(ServerKey(fs[0].key), SerializeValue(host, SlotValue(fs[0].val)))
    ensures Entries(host, fs)[1..] == Entries(host, fs[1..])
  {
  }

  lemma SerializeFieldsUnfold(host: Host, fs: seq<Entry<Slot>>, acc: seq<Entry<JsValue>>)
    requires |fs| > 0
    ensures SerializeFields(host, fs, acc) ==
      SerializeFields(host, fs[1..], Put(acc, ServerKey(fs[0].key), SerializeValue(host, SlotValue(fs[0].val))))
    ensures |fs| == 1 ==> SerializeFields(host, fs, acc) == Put(acc, ServerKey(fs[0].key), SerializeValue(host, SlotValue(fs[0].val)))
  {
  }

  /** The caller's serializer sees the plain serialized object, and is not
      passed down: nested model objects appear as their plain serialization. */
  lemma SerializerAppliedAtTop(host: Host, m: Model, f: JsValue -> JsValue)
    ensures Serialize(host, m, Some(f)) == f(Serialize(host, m, None))
  {
  }

  lemma {:induction false} SerializeMembersElementwise(host: Host, ms: seq<Model>, i: nat)
    requires i < |ms|
    ensures SerializeMembers(host, ms)[i] == Serialize(host, ms[i], None)
    decreases i
  {
    if i > 0 {
      SerializeMembersElementwise(host, ms[1..], i - 1);
    }
  }

  /** How a property value is serialized: a model object recursively, a
      has-many collection element by element in order, a date through the
      `YYYY-MM-DDTHH:mm:ss` formatter, anything else unchanged. Nothing
      inside a plain array or object is rewritten. */
  lemma SerializedValues(host: Host, v: JsValue)
    ensures v.Instance? ==> SerializeValue(host, v) == Serialize(host, v.model, None)
    ensures v.HasManyValue? ==>
      SerializeValue(host, v).Arr? && |SerializeValue(host, v).items| == |v.members| &&
      forall i :: 0 <= i < |v.members| ==> SerializeValue(host, v).items[i] == Serialize(host, v.members[i], None)
    ensures v.Date? ==> SerializeValue(host, v) == Str(host.formatDate(v.date))
    ensures !(v.Instance? || v.HasManyValue? || v.Date?) ==> SerializeValue(host, v) == v
  {
    if v.HasManyValue? {
      forall i | 0 <= i < |v.members|
        ensures SerializeValue(host, v).items[i] == Serialize(host, v.members[i], None)
      {
        SerializeMembersElementwise(host, v.members, i);
      }
    }
  }

  // Ingestion followed by serialization.

  lemma SameKeysSameServerKeys(fs: seq<Entry<Slot>>, gs: seq<Entry<Slot>>)
    requires Keys(fs) == Keys(gs)
    ensures ServerKeys(fs) == ServerKeys(gs)
  {
    assert forall i :: 0 <= i < |fs| ==> Keys(fs)[i] == Keys(gs)[i];
  }

  /** A property ingested from the payload is written back under the same
      payload key: a `json` attribute or a raw property returns the payload
      value itself, a `string` attribute its text, a `date` attribute the
      formatted parsed date, and a to-one relation given a model object of
      its class that object's serialization. */
  lemma IngestedPropertySerializes(host: Host, reg: Registry, m: Model, data: JsValue, j: nat)
    requires PushPayload(host, reg, m, data).Ok?
    requires Distinct(ServerKeys(m.fields))
    requires j < |m.fields|
    requires Incoming(data, ServerKey(m.fields[j].key)).Some?
    ensures var v := Incoming(data, ServerKey(m.fields[j].key)).value;
      var out := Serialize(host, PushPayload(host, reg, m, data).value, None);
      var s := m.fields[j].val;
      var k := ServerKey(m.fields[j].key);
      out.Obj? && |out.props| == |m.fields| &&
      (s.PlainSlot? && !(v.Instance? || v.HasManyValue? || v.Date?) ==> out.props[j] == Entry(k, v)) &&
      (s.AttrSlot? && s.attr.kind == JsonType && !(v.Instance? || v.HasManyValue? || v.Date?) ==> out.props[j] == Entry(k, v)) &&
      (s.AttrSlot? && s.attr.kind == StringType ==> ToText(host, v).Ok? && out.props[j] == Entry(k, Str(ToText(host, v).value))) &&
      (s.AttrSlot? && s.attr.kind == DateType ==> out.props[j] == Entry(k, Str(host.formatDate(host.parseDate(v))))) &&
      (s.BelongsToSlot? && s.one.target in reg && IsInstanceOf(v, s.one.target) ==> out.props[j] == Entry(k, Serialize(host, v.model, None)))
  {
    var m' := PushPayload(host, reg, m, data).value;
    var v := Incoming(data, ServerKey(m.fields[j].key)).value;
    PushPayloadIsPartial(host, reg, m, data, j);
    WrittenSlotSerializes(host, reg, m.fields[j].val, v, m'.fields[j].val);
    SameKeysSameServerKeys(m.fields, m'.fields);
    SerializedShape(host, m');
  }

  /** What one container serializes to after it accepted an incoming value. */
  lemma WrittenSlotSerializes(host: Host, reg: Registry, s: Slot, v: JsValue, s': Slot)
    requires SetSlot(host, reg, s, v) == Ok(s')
    requires !IsNullish(v)
    ensures var out := SerializeValue(host, SlotValue(s'));
      (s.PlainSlot? && !(v.Instance? || v.HasManyValue? || v.Date?) ==> out == v) &&
      (s.AttrSlot? && s.attr.kind == JsonType && !(v.Instance? || v.HasManyValue? || v.Date?) ==> out == v) &&
      (s.AttrSlot? && s.attr.kind == StringType ==> ToText(host, v).Ok? && out == Str(ToText(host, v).value)) &&
      (s.AttrSlot? && s.attr.kind == DateType ==> out == Str(host.formatDate(host.parseDate(v)))) &&
      (s.BelongsToSlot? && s.one.target in reg && IsInstanceOf(v, s.one.target) ==> out == Serialize(host, v.model, None))
  {
    if s.AttrSlot? && !s.attr.kind.OtherType? {
      assert s'.attr.value == Attrs.Coerce(host, s.attr.kind, v).value.value;
    }
  }

  /** The other attribute types: a number or a boolean serializes as the
      coerced value, and a type outside the known ones as the old value. */
  lemma WrittenAttrSerializes(host: Host, a: Attr, v: JsValue, a': Attr)
    requires Attrs.SetValue(host, a, v) == Ok(a') && !IsNullish(v)
    ensures a.kind == NumberType ==>
      Attrs.NumberInput(host, v).Ok? && SerializeValue(host, a'.value) == Num(Attrs.NumberInput(host, v).value)
    ensures a.kind == BooleanType ==> SerializeValue(host, a'.value) == Bool(Truthy(v))
    ensures a.kind.OtherType? ==> SerializeValue(host, a'.value) == SerializeValue(host, a.value)
  {
  }

  /** A relation given anything but an instance of its target serializes as
      the target instance adopting the value made. */
  lemma WrittenOneSerializes(host: Host, reg: Registry, b: BelongsTo, v: JsValue, b': BelongsTo)
    requires BelongsToSet(host, reg, b, v) == Ok(b') && !v.Null?
    ensures Adopt(host, reg, b.target, v).Ok?
    ensures SerializeValue(host, SlotValue(BelongsToSlot(b'))) == Serialize(host, Adopt(host, reg, b.target, v).value, None)
  {
  }

  /** A to-many relation serializes element by element: each element as the
      member adopting it made. */
  lemma HasManySerializes(host: Host, reg: Registry, h: HasMany, v: JsValue, h': HasMany)
    requires HasManySet(host, reg, h, v) == Ok(h') && !v.Null?
    ensures var out := SerializeValue(host, SlotValue(HasManySlot(h')));
      out.Arr? && |out.items| == |Elements(v)| &&
      forall i :: 0 <= i < |Elements(v)| ==>
        Adopt(host, reg, h.target, Elements(v)[i]).Ok? &&
        out.items[i] == Serialize(host, Adopt(host, reg, h.target, Elements(v)[i]).value, None)
  {
    var ms := h'.value.members;
    AdoptAllElementwise(host, reg, h.target, Elements(v));
    assert AdoptAll(host, reg, h.target, Elements(v)) == Ok(ms);
    SerializedValues(host, HasManyValue(ms));
  }
}
