/** Payload ingestion (`Model.pushPayload`, index.js:144-158) and the
    relation containers it recurses through (`BelongsToRelation.setValue`,
    index.js:21-29, and `HasManyRelation.setValue`, index.js:46-60), plus the
    proxy's `set` trap (index.js:120-127). Recursion terminates because every
    nested call ingests a strictly smaller part of the payload. */
module Ingestion {
  import opened Results
  import opened Props
  import opened JsValues
  import opened Attrs
  import opened Classes
  import opened KeyMapper
  import opened Conversions

  /** The property key under which an array holds element `i`, if `key` is one. */
  function ArrayIndex(key: string, length: nat): (r: Option<nat>)
    ensures r.Some? ==> r.value < length
  {
    if IsNumeral(key) && (|key| == 1 || key[0] != '0') && DecimalValue(key) < length
    then Some(DecimalValue(key)) else None
  }

  /** Elements of an array value, for `forEach`. */
  function Elements(v: JsValue): seq<JsValue>
    requires v.Arr? || v.HasManyValue?
  {
    if v.Arr? then v.items else Instances(v.members)
  }

  lemma ElementsSmaller(v: JsValue)
    requires v.Arr? || v.HasManyValue?
    ensures SizeOfAll(Elements(v)) < SizeOf(v)
  {
    if v.HasManyValue? {
      InstancesSize(v.members);
    }
  }

  /** `key in data`, and when it holds, `data[key]`. The `in` operator throws
      on a primitive. An omitted payload is `undefined` and stands for the
      default `{}`. Keys inherited from prototypes are not modelled. */
  function Probe(data: JsValue, key: string): (r: Result<Option<JsValue>>)
    ensures r.Err? <==> data.Null? || data.Num? || data.Str? || data.Bool?
    ensures r.Ok? && r.value.Some? ==> SizeOf(r.value.value) < SizeOf(data)
  {
    match data
    case Undefined => Ok(None)
    case Null => Err(TypeError)
    case Num(_) => Err(TypeError)
    case Str(_) => Err(TypeError)
    case Bool(_) => Err(TypeError)
    case Date(_) => Ok(None)
    case Obj(props) =>
      (match Find(props, key)
       case None => Ok(None)
       case Some(i) =>
         PropSmaller(props, i);
         Ok(Some(props[i].val)))
    case Arr(items) =>
      if key == "length" then Ok(Some(Num(Finite(|items| as real))))
      else (match ArrayIndex(key, |items|)
        case None => Ok(None)
        case Some(i) =>
          ItemSmaller(items, i);
          Ok(Some(items[i])))
    case HasManyValue(ms) =>
      if key == "length" then Ok(Some(Num(Finite(|ms| as real))))
      else (match ArrayIndex(key, |ms|)
        case None => Ok(None)
        case Some(i) =>
          MemberSmaller(ms, i);
          Ok(Some(Instance(ms[i]))))
    case Instance(m) =>
      (match Find(m.fields, key)
       case None => Ok(None)
       case Some(i) =>
         SlotValueSmaller(m.fields[i].val);
         FieldSmaller(m.fields, i);
         Ok(Some(SlotValue(m.fields[i].val))))
  }

  /** The value `pushPayload` writes to a property whose payload key is
      `key`: present, and neither null nor undefined. */
  function Incoming(data: JsValue, key: string): Option<JsValue> {
    match Probe(data, key)
    case Ok(Some(v)) => if IsNullish(v) then None else Some(v)
    case _ => None
  }

  /** Whether `v` is kept by reference by a relation to class `t`. */
  predicate IsInstanceOf(v: JsValue, t: ClassName) {
    v.Instance? && InstanceOf(v.model, t)
  }

  /** `pushPayload` from the `i`-th property on. */
  function PushFrom(host: Host, reg: Registry, m: Model, data: JsValue, i: nat): (r: Result<Model>)
    requires i <= |m.fields|
    ensures r.Ok? ==> r.value.lineage == m.lineage && Keys(r.value.fields) == Keys(m.fields)
    ensures r.Ok? && ModelInvariant(m) ==> ModelInvariant(r.value)
    decreases SizeOf(data), 0, |m.fields| - i
  {
    if i == |m.fields| then Ok(m)
    else
      var field := m.fields[i];
      var found :- Probe(data, ServerKey(field.key));
      if found.Some? && !IsNullish(found.value) then
        var s :- SetSlot(host, reg, field.val, found.value);
        var m' := m.(fields := m.fields[i := Entry(field.key, s)]);
        assert Keys(m'.fields) == Keys(m.fields);
        PushFrom(host, reg, m', data, i + 1)
      else PushFrom(host, reg, m, data, i + 1)
  }

  /** `m.pushPayload(data)`: writes every property whose payload key holds a
      value, and returns the same object. */
  function PushPayload(host: Host, reg: Registry, m: Model, data: JsValue): (r: Result<Model>)
    ensures r.Ok? ==> r.value.lineage == m.lineage && Keys(r.value.fields) == Keys(m.fields)
    ensures r.Ok? && ModelInvariant(m) ==> ModelInvariant(r.value)
    decreases SizeOf(data), 1, 0
  {
    PushFrom(host, reg, m, data, 0)
  }

  /** One element of a relation: an instance of the target class is kept,
      anything else becomes `new Target().pushPayload(v)`. */
  function Adopt(host: Host, reg: Registry, t: ClassName, v: JsValue): (r: Result<Model>)
    ensures t !in reg ==> r == Err(TypeError)
    ensures r.Ok? ==> InstanceOf(r.value, t)
    ensures t in reg && IsInstanceOf(v, t) ==> r == Ok(v.model)
    ensures r.Ok? && !IsInstanceOf(v, t) ==>
      r.value.lineage == [t] + reg[t].ancestors && Keys(r.value.fields) == ClassFieldNames(reg, t)
    ensures r.Ok? && !IsInstanceOf(v, t) ==> ModelInvariant(r.value)
    decreases SizeOf(v), 2, 0
  {
    if t !in reg then Err(TypeError)
    else if IsInstanceOf(v, t) then Ok(v.model)
    else
      var blank :- New(host, reg, t);
      NewInstanceShape(host, reg, t);
      PushPayload(host, reg, blank, v)
  }

  /** `BelongsToRelation.setValue`. */
  function BelongsToSet(host: Host, reg: Registry, b: BelongsTo, v: JsValue): (r: Result<BelongsTo>)
    ensures r.Ok? ==> r.value.target == b.target
    ensures v.Null? ==> r == Ok(b.(value := None))
    ensures r.Ok? && !v.Null? ==> r.value.value.Some? && InstanceOf(r.value.value.value, b.target)
    ensures b.target in reg && IsInstanceOf(v, b.target) ==> r == Ok(b.(value := Some(v.model)))
    ensures !v.Null? && b.target !in reg ==> r == Err(TypeError)
    decreases SizeOf(v), 3, 0
  {
    if v.Null? then Ok(b.(value := None))
    else
      var x :- Adopt(host, reg, b.target, v);
      Ok(b.(value := Some(x)))
  }

  /** The `forEach` of `HasManyRelation.setValue`, in order. */
  function AdoptAll(host: Host, reg: Registry, t: ClassName, items: seq<JsValue>): (r: Result<seq<Model>>)
    ensures r.Ok? ==> |r.value| == |items|
    ensures r.Ok? ==> forall i :: 0 <= i < |items| ==> InstanceOf(r.value[i], t)
    ensures r.Ok? ==> forall i :: 0 <= i < |items| && IsInstanceOf(items[i], t) ==> r.value[i] == items[i].model
    ensures |items| > 0 && t !in reg ==> r == Err(TypeError)
    decreases SizeOfAll(items), 4, 0
  {
    if |items| == 0 then Ok([])
    else
      ItemSmaller(items, 0);
      var first :- Adopt(host, reg, t, items[0]);
      var rest :- AdoptAll(host, reg, t, items[1..]);
      assert forall i :: 1 <= i < |items| ==> items[1..][i - 1] == items[i];
      Ok([first] + rest)
  }

  /** `HasManyRelation.setValue`: null clears the relation; an array is
      replaced element by element by a new collection; anything else has no
      `forEach` and throws. */
  function HasManySet(host: Host, reg: Registry, h: HasMany, v: JsValue): (r: Result<HasMany>)
    ensures r.Ok? ==> r.value.target == h.target
    ensures v.Null? ==> r == Ok(h.(value := NullMany))
    ensures !(v.Null? || v.Arr? || v.HasManyValue?) ==> r == Err(TypeError)
    ensures r.Ok? && !v.Null? ==> r.value.value.Many? && |r.value.value.members| == |Elements(v)|
    ensures r.Ok? && !v.Null? ==> forall i :: 0 <= i < |Elements(v)| ==> InstanceOf(r.value.value.members[i], h.target)
    ensures r.Ok? && !v.Null? ==> forall i :: 0 <= i < |Elements(v)| && IsInstanceOf(Elements(v)[i], h.target) ==>
      r.value.value.members[i] == Elements(v)[i].model
    decreases SizeOf(v), 5, 0
  {
    if v.Null? then Ok(h.(value := NullMany))
    else if v.Arr? || v.HasManyValue? then
      ElementsSmaller(v);
      var ms :- AdoptAll(host, reg, h.target, Elements(v));
      Ok(h.(value := Many(ms)))
    else Err(TypeError)
  }

  /** Writing `v` to a property through the proxy: a container's `setValue`,
      or a plain assignment. */
  function SetSlot(host: Host, reg: Registry, s: Slot, v: JsValue): (r: Result<Slot>)
    ensures r.Ok? ==> SameContainer(s, r.value)
    ensures r.Ok? && SlotInvariant(s) ==> SlotInvariant(r.value)
    ensures s.PlainSlot? ==> r == Ok(PlainSlot(v))
    decreases SizeOf(v), 6, 0
  {
    match s
    case AttrSlot(a) =>
      var a' :- Attrs.SetValue(host, a, v);
      Ok(AttrSlot(a'))
    case BelongsToSlot(b) =>
      var b' :- BelongsToSet(host, reg, b, v);
      Ok(BelongsToSlot(b'))
    case HasManySlot(h) =>
      var h' :- HasManySet(host, reg, h, v);
      Ok(HasManySlot(h'))
    case PlainSlot(_) => Ok(PlainSlot(v))
  }

  /** Two slots are the same container: same attribute type and options,
      or same relation kind and target class, or both plain. */
  predicate SameContainer(s: Slot, s': Slot) {
    match s
    case AttrSlot(a) => s'.AttrSlot? && s'.attr.kind == a.kind && s'.attr.defaultValue == a.defaultValue
    case BelongsToSlot(b) => s'.BelongsToSlot? && s'.one.target == b.target
    case HasManySlot(h) => s'.HasManySlot? && s'.many.target == h.target
    case PlainSlot(_) => s'.PlainSlot?
  }

  /** `obj[name] = v` through the proxy's `set` trap: a property holding a
      container delegates to its `setValue`, any other property is
      overwritten, and a missing one is added at the end as a raw value. */
  function Set(host: Host, reg: Registry, m: Model, name: string, v: JsValue): (r: Result<Model>)
    ensures r.Ok? ==> r.value.lineage == m.lineage
    ensures name in Keys(m.fields) && r.Ok? ==> Keys(r.value.fields) == Keys(m.fields)
    ensures name !in Keys(m.fields) ==> r.Ok? && Keys(r.value.fields) == Keys(m.fields) + [name]
    ensures name !in Keys(m.fields) ==> Get(r.value, name) == v
    ensures r.Ok? ==> forall n :: n != name ==> Get(r.value, n) == Get(m, n)
    ensures r.Ok? && ModelInvariant(m) ==> ModelInvariant(r.value)
  {
    match Find(m.fields, name)
    case None =>
      AppendedProperty(m, name, v);
      Ok(m.(fields := m.fields + [Entry(name, PlainSlot(v))]))
    case Some(i) =>
      var s :- SetSlot(host, reg, m.fields[i].val, v);
      UpdatedProperty(m, i, s);
      Ok(m.(fields := m.fields[i := Entry(name, s)]))
  }

  lemma AppendedProperty(m: Model, name: string, v: JsValue)
    requires name !in Keys(m.fields)
    ensures var m' := m.(fields := m.fields + [Entry(name, PlainSlot(v))]);
      Keys(m'.fields) == Keys(m.fields) + [name] && Get(m', name) == v
    ensures var m' := m.(fields := m.fields + [Entry(name, PlainSlot(v))]);
      forall n :: n != name ==> Get(m', n) == Get(m, n)
    ensures var m' := m.(fields := m.fields + [Entry(name, PlainSlot(v))]);
      ModelInvariant(m) ==> ModelInvariant(m')
  {
    var e := Entry(name, PlainSlot(v));
    FindAfterAppend(m.fields, e);
    assert Keys(m.fields + [e]) == Keys(m.fields) + [name];
  }

  lemma UpdatedProperty(m: Model, i: nat, s: Slot)
    requires i < |m.fields| && Find(m.fields, m.fields[i].key) == Some(i)
    ensures var m' := m.(fields := m.fields[i := Entry(m.fields[i].key, s)]);
      Keys(m'.fields) == Keys(m.fields) &&
      (forall n :: n != m.fields[i].key ==> Get(m', n) == Get(m, n)) &&
      (ModelInvariant(m) && SlotInvariant(s) ==> ModelInvariant(m'))
  {
    FindAfterUpdate(m.fields, i, s);
  }

  /** Reading a property back after writing it through the proxy answers
      what its container stored; a container that throws fails the write. */
  lemma SetThenGet(host: Host, reg: Registry, m: Model, name: string, v: JsValue)
    requires name in Keys(m.fields)
    ensures var s := m.fields[Find(m.fields, name).value].val;
      SetSlot(host, reg, s, v).Err? ==> Set(host, reg, m, name, v) == Err(SetSlot(host, reg, s, v).error)
    ensures var s := m.fields[Find(m.fields, name).value].val;
      SetSlot(host, reg, s, v).Ok? ==>
        Set(host, reg, m, name, v).Ok? &&
        Get(Set(host, reg, m, name, v).value, name) == SlotValue(SetSlot(host, reg, s, v).value)
  {
  }

  /** Writing a property of an object without repeated keys replaces that
      property's container in place and leaves the others as they were. */
  lemma SetInPlace(host: Host, reg: Registry, m: Model, i: nat, v: JsValue, s: Slot)
    requires DistinctKeys(m.fields) && i < |m.fields|
    requires SetSlot(host, reg, m.fields[i].val, v) == Ok(s)
    ensures Set(host, reg, m, m.fields[i].key, v) == Ok(m.(fields := m.fields[i := Entry(m.fields[i].key, s)]))
    ensures DistinctKeys(m.fields[i := Entry(m.fields[i].key, s)])
  {
    FindDistinct(m.fields, i);
  }

  // Properties of ingestion.

  /** What `pushPayload` does to property `j` when started at the `i`-th:
      a property before `i`, or whose payload key brings no value, is
      untouched; any other has had that value written through `SetSlot`. */
  predicate FrameAt(host: Host, reg: Registry, m: Model, data: JsValue, i: nat, j: nat, r: Model)
    requires j < |m.fields| && j < |r.fields|
  {
    && ((j < i || Incoming(data, ServerKey(m.fields[j].key)).None?) ==> r.fields[j] == m.fields[j])
    && (i <= j && Incoming(data, ServerKey(m.fields[j].key)).Some? ==>
         Stores(host, reg, m.fields[j].val, Incoming(data, ServerKey(m.fields[j].key)).value, r.fields[j].val))
  }

  /** Writing `v` to container `s` succeeds and gives `s'`. */
  predicate Stores(host: Host, reg: Registry, s: Slot, v: JsValue, s': Slot) {
    SetSlot(host, reg, s, v) == Ok(s')
  }

  lemma {:induction false} PushFromFrame(host: Host, reg: Registry, m: Model, data: JsValue, i: nat, j: nat, r: Model)
    requires i <= |m.fields| && j < |m.fields|
    requires PushFrom(host, reg, m, data, i) == Ok(r)
    ensures |r.fields| == |m.fields|
    ensures FrameAt(host, reg, m, data, i, j, r)
    decreases |m.fields| - i, 1
  {
    PushFromLength(host, reg, m, data, i);
    if i < |m.fields| {
      if Incoming(data, ServerKey(m.fields[i].key)).Some? {
        PushFromFrameWritten(host, reg, m, data, i, j, r);
      } else {
        SkipStep(host, reg, m, data, i);
        PushFromFrameSkipped(host, reg, m, data, i, j, r);
      }
    }
  }

  lemma {:induction false} PushFromFrameSkipped(host: Host, reg: Registry, m: Model, data: JsValue, i: nat, j: nat, r: Model)
    requires i < |m.fields| && j < |m.fields|
    requires PushFrom(host, reg, m, data, i + 1) == Ok(r)
    requires Incoming(data, ServerKey(m.fields[i].key)).None?
    ensures |r.fields| == |m.fields|
    ensures FrameAt(host, reg, m, data, i, j, r)
    decreases |m.fields| - i, 0
  {
    PushFromFrame(host, reg, m, data, i + 1, j, r);
    FrameAfterSkip(host, reg, m, data, i, j, r);
  }

  lemma SkipStep(host: Host, reg: Registry, m: Model, data: JsValue, i: nat)
    requires i < |m.fields| && PushFrom(host, reg, m, data, i).Ok?
    requires Incoming(data, ServerKey(m.fields[i].key)).None?
    ensures PushFrom(host, reg, m, data, i) == PushFrom(host, reg, m, data, i + 1)
  {
    PushFromProbes(host, reg, m, data, i);
    PushFromSkips(host, reg, m, data, i);
  }

  lemma PushFromLength(host: Host, reg: Registry, m: Model, data: JsValue, i: nat)
    requires i <= |m.fields| && PushFrom(host, reg, m, data, i).Ok?
    ensures |PushFrom(host, reg, m, data, i).value.fields| == |m.fields|
  {
    assert |Keys(PushFrom(host, reg, m, data, i).value.fields)| == |Keys(m.fields)|;
  }

  /** Looking up a property's payload key succeeded, so the payload is not
      a primitive. */
  lemma PushFromProbes(host: Host, reg: Registry, m: Model, data: JsValue, i: nat)
    requires i < |m.fields| && PushFrom(host, reg, m, data, i).Ok?
    ensures !IsPrimitive(data)
  {
    assert Probe(data, ServerKey(m.fields[i].key)).Ok?;
  }

  lemma FrameAfterSkip(host: Host, reg: Registry, m: Model, data: JsValue, i: nat, j: nat, r: Model)
    requires i < |m.fields| && j < |m.fields| && |r.fields| == |m.fields|
    requires Incoming(data, ServerKey(m.fields[i].key)).None?
    requires FrameAt(host, reg, m, data, i + 1, j, r)
    ensures FrameAt(host, reg, m, data, i, j, r)
  {
  }

  lemma {:induction false} PushFromFrameWritten(host: Host, reg: Registry, m: Model, data: JsValue, i: nat, j: nat, r: Model)
    requires i < |m.fields| && j < |m.fields|
    requires PushFrom(host, reg, m, data, i) == Ok(r)
    requires Incoming(data, ServerKey(m.fields[i].key)).Some?
    ensures |r.fields| == |m.fields|
    ensures FrameAt(host, reg, m, data, i, j, r)
    decreases |m.fields| - i, 0
  {
    var v := Incoming(data, ServerKey(m.fields[i].key)).value;
    PushFromProbes(host, reg, m, data, i);
    if SetSlot(host, reg, m.fields[i].val, v).Err? {
      PushFromRejects(host, reg, m, data, i);
    }
    var s := SetSlot(host, reg, m.fields[i].val, v).value;
    PushFromAccepts(host, reg, m, data, i);
    PushFromFrame(host, reg, Written(m, i, s), data, i + 1, j, r);
    FrameAfterWrite(host, reg, m, data, i, j, s, r);
  }

  lemma FrameAfterWrite(host: Host, reg: Registry, m: Model, data: JsValue, i: nat, j: nat, s: Slot, r: Model)
    requires i < |m.fields| && j < |m.fields| && |r.fields| == |m.fields|
    requires Incoming(data, ServerKey(m.fields[i].key)).Some?
    requires SetSlot(host, reg, m.fields[i].val, Incoming(data, ServerKey(m.fields[i].key)).value) == Ok(s)
    requires FrameAt(host, reg, Written(m, i, s), data, i + 1, j, r)
    ensures FrameAt(host, reg, m, data, i, j, r)
  {
    assert Written(m, i, s).fields[j].key == m.fields[j].key;
  }

  /** Partial ingestion: `pushPayload` returns the same object, writes a
      property exactly when its payload key holds a value other than null
      and undefined, writes it with that value, and leaves every other
      property as it was. */
  lemma PushPayloadIsPartial(host: Host, reg: Registry, m: Model, data: JsValue, j: nat)
    requires PushPayload(host, reg, m, data).Ok?
    requires j < |m.fields|
    ensures PushPayload(host, reg, m, data).value.lineage == m.lineage
    ensures PushPayload(host, reg, m, data).value.fields[j].key == m.fields[j].key
    ensures Incoming(data, ServerKey(m.fields[j].key)).None? ==>
      PushPayload(host, reg, m, data).value.fields[j] == m.fields[j]
    ensures Incoming(data, ServerKey(m.fields[j].key)).Some? ==>
      SetSlot(host, reg, m.fields[j].val, Incoming(data, ServerKey(m.fields[j].key)).value)
        == Ok(PushPayload(host, reg, m, data).value.fields[j].val)
  {
    PushFromFrame(host, reg, m, data, 0, j, PushPayload(host, reg, m, data).value);
    assert Keys(PushPayload(host, reg, m, data).value.fields)[j] == Keys(m.fields)[j];
  }

  /** A payload that brings a value for one property only changes that
      property, to what its container stores. */
  lemma OnlyOneWritten(host: Host, reg: Registry, m: Model, data: JsValue, i: nat, s: Slot, r: Model)
    requires PushPayload(host, reg, m, data) == Ok(r)
    requires i < |m.fields|
    requires forall j :: 0 <= j < |m.fields| && j != i ==> Incoming(data, ServerKey(m.fields[j].key)).None?
    requires Incoming(data, ServerKey(m.fields[i].key)).Some?
    requires SetSlot(host, reg, m.fields[i].val, Incoming(data, ServerKey(m.fields[i].key)).value) == Ok(s)
    ensures r == Written(m, i, s)
  {
    assert |r.fields| == |m.fields| by { assert |Keys(r.fields)| == |Keys(m.fields)|; }
    forall j | 0 <= j < |m.fields| ensures r.fields[j] == Written(m, i, s).fields[j] {
      PushPayloadIsPartial(host, reg, m, data, j);
    }
  }

  lemma {:induction false} PushFromNothing(host: Host, reg: Registry, m: Model, i: nat)
    requires i <= |m.fields|
    ensures PushFrom(host, reg, m, Obj([]), i) == Ok(m)
    ensures PushFrom(host, reg, m, Undefined, i) == Ok(m)
    decreases |m.fields| - i
  {
    if i < |m.fields| {
      PushFromNothing(host, reg, m, i + 1);
    }
  }

  /** An object made only of attributes accepts the incoming values exactly
      when none of them is one its attribute's type cannot convert: null
      never comes in, so the ReferenceError of `setValue` is not reached. */
  lemma AttributesAccept(host: Host, reg: Registry, m: Model, data: JsValue, i: nat)
    requires forall j :: 0 <= j < |m.fields| ==> m.fields[j].val.AttrSlot?
    ensures WritesSucceed(host, reg, m, data, i) <==>
      forall j :: i <= j < |m.fields| && Incoming(data, ServerKey(m.fields[j].key)).Some? ==>
        !Rejects(m.fields[j].val.attr.kind, Incoming(data, ServerKey(m.fields[j].key)).value)
  {
    forall j | i <= j < |m.fields| && Incoming(data, ServerKey(m.fields[j].key)).Some?
      ensures SetSlot(host, reg, m.fields[j].val, Incoming(data, ServerKey(m.fields[j].key)).value).Ok? <==>
        !Rejects(m.fields[j].val.attr.kind, Incoming(data, ServerKey(m.fields[j].key)).value)
    {
      assert !IsNullish(Incoming(data, ServerKey(m.fields[j].key)).value);
    }
  }

  /** In particular, an object made only of attributes accepts a payload
      object none of whose values makes a conversion throw. */
  lemma ConvertiblePayloadAccepted(host: Host, reg: Registry, m: Model, props: seq<Entry<JsValue>>, i: nat)
    requires forall j :: 0 <= j < |m.fields| ==> m.fields[j].val.AttrSlot?
    requires forall e :: 0 <= e < |props| ==> !ConversionThrows(props[e].val)
    ensures WritesSucceed(host, reg, m, Obj(props), i)
  {
    AttributesAccept(host, reg, m, Obj(props), i);
    forall j | i <= j < |m.fields| && Incoming(Obj(props), ServerKey(m.fields[j].key)).Some?
      ensures !Rejects(m.fields[j].val.attr.kind, Incoming(Obj(props), ServerKey(m.fields[j].key)).value)
    {
      var e := Find(props, ServerKey(m.fields[j].key)).value;
      assert Incoming(Obj(props), ServerKey(m.fields[j].key)).value == props[e].val;
    }
  }

  /** A string attribute given a string by the payload reads that string
      after ingestion. */
  lemma TextIngested(host: Host, reg: Registry, m: Model, data: JsValue, j: nat, text: string)
    requires PushPayload(host, reg, m, data).Ok?
    requires DistinctKeys(m.fields) && j < |m.fields|
    requires m.fields[j].val.AttrSlot? && m.fields[j].val.attr.kind == StringType
    requires Incoming(data, ServerKey(m.fields[j].key)) == Some(Str(text))
    ensures Get(PushPayload(host, reg, m, data).value, m.fields[j].key) == Str(text)
  {
    var r := PushPayload(host, reg, m, data).value;
    PushPayloadIsPartial(host, reg, m, data, j);
    assert r.fields[j].val.attr.value == Str(text);
    assert Keys(r.fields) == Keys(m.fields);
    assert DistinctKeys(r.fields) by {
      forall a, b | 0 <= a < b < |r.fields| ensures r.fields[a].key != r.fields[b].key {
        assert Keys(r.fields)[a] == Keys(m.fields)[a] && Keys(r.fields)[b] == Keys(m.fields)[b];
      }
    }
    GetAt(r, j);
  }

  /** An empty payload, or none at all, changes nothing. */
  lemma EmptyPayloadChangesNothing(host: Host, reg: Registry, m: Model)
    ensures PushPayload(host, reg, m, Obj([])) == Ok(m)
    ensures PushPayload(host, reg, m, Undefined) == Ok(m)
  {
    PushFromNothing(host, reg, m, 0);
  }

  /** A primitive payload makes the `in` test throw. */
  lemma PrimitivePayloadThrows(host: Host, reg: Registry, m: Model, data: JsValue)
    requires |m.fields| > 0
    requires IsPrimitive(data)
    ensures PushPayload(host, reg, m, data) == Err(TypeError)
  {
  }

  predicate IsPrimitive(v: JsValue) {
    v.Null? || v.Num? || v.Str? || v.Bool?
  }

  /** Every property from the `i`-th on whose payload key brings a value
      accepts that value. */
  predicate WritesSucceed(host: Host, reg: Registry, m: Model, data: JsValue, i: nat) {
    forall j :: i <= j < |m.fields| && Incoming(data, ServerKey(m.fields[j].key)).Some? ==>
      SetSlot(host, reg, m.fields[j].val, Incoming(data, ServerKey(m.fields[j].key)).value).Ok?
  }

  /** The object after property `i` has accepted `s`. */
  function Written(m: Model, i: nat, s: Slot): (r: Model)
    requires i < |m.fields|
    ensures |r.fields| == |m.fields| && forall j :: 0 <= j < |m.fields| && j != i ==> r.fields[j] == m.fields[j]
  {
    m.(fields := m.fields[i := Entry(m.fields[i].key, s)])
  }

  lemma PushFromSkips(host: Host, reg: Registry, m: Model, data: JsValue, i: nat)
    requires i < |m.fields| && !IsPrimitive(data)
    requires Incoming(data, ServerKey(m.fields[i].key)).None?
    ensures PushFrom(host, reg, m, data, i) == PushFrom(host, reg, m, data, i + 1)
  {
  }

  lemma WritesSkip(host: Host, reg: Registry, m: Model, data: JsValue, i: nat)
    requires i < |m.fields|
    requires Incoming(data, ServerKey(m.fields[i].key)).None?
    ensures WritesSucceed(host, reg, m, data, i) <==> WritesSucceed(host, reg, m, data, i + 1)
  {
  }

  lemma PushFromRejects(host: Host, reg: Registry, m: Model, data: JsValue, i: nat)
    requires i < |m.fields| && !IsPrimitive(data)
    requires Incoming(data, ServerKey(m.fields[i].key)).Some?
    requires SetSlot(host, reg, m.fields[i].val, Incoming(data, ServerKey(m.fields[i].key)).value).Err?
    ensures PushFrom(host, reg, m, data, i).Err?
    ensures !WritesSucceed(host, reg, m, data, i)
  {
  }

  lemma PushFromAccepts(host: Host, reg: Registry, m: Model, data: JsValue, i: nat)
    requires i < |m.fields| && !IsPrimitive(data)
    requires Incoming(data, ServerKey(m.fields[i].key)).Some?
    requires SetSlot(host, reg, m.fields[i].val, Incoming(data, ServerKey(m.fields[i].key)).value).Ok?
    ensures var s := SetSlot(host, reg, m.fields[i].val, Incoming(data, ServerKey(m.fields[i].key)).value).value;
      PushFrom(host, reg, m, data, i) == PushFrom(host, reg, Written(m, i, s), data, i + 1)
  {
  }

  lemma WritesAccept(host: Host, reg: Registry, m: Model, data: JsValue, i: nat, s: Slot)
    requires i < |m.fields|
    requires Incoming(data, ServerKey(m.fields[i].key)).Some?
    requires SetSlot(host, reg, m.fields[i].val, Incoming(data, ServerKey(m.fields[i].key)).value) == Ok(s)
    ensures WritesSucceed(host, reg, m, data, i) <==> WritesSucceed(host, reg, Written(m, i, s), data, i + 1)
  {
  }

  lemma {:induction false} PushFromSucceeds(host: Host, reg: Registry, m: Model, data: JsValue, i: nat)
    requires i <= |m.fields| && !IsPrimitive(data)
    ensures PushFrom(host, reg, m, data, i).Ok? <==> WritesSucceed(host, reg, m, data, i)
    decreases |m.fields| - i
  {
    if i < |m.fields| {
      var incoming := Incoming(data, ServerKey(m.fields[i].key));
      if incoming.None? {
        PushFromSkips(host, reg, m, data, i);
        WritesSkip(host, reg, m, data, i);
        PushFromSucceeds(host, reg, m, data, i + 1);
      } else if SetSlot(host, reg, m.fields[i].val, incoming.value).Err? {
        PushFromRejects(host, reg, m, data, i);
      } else {
        var s := SetSlot(host, reg, m.fields[i].val, incoming.value).value;
        PushFromAccepts(host, reg, m, data, i);
        WritesAccept(host, reg, m, data, i, s);
        PushFromSucceeds(host, reg, Written(m, i, s), data, i + 1);
      }
    }
  }

  /** `pushPayload` throws exactly when the payload is a primitive and the
      object has a property to look up, or when some property rejects the
      value its payload key brings. */
  lemma PushPayloadSucceeds(host: Host, reg: Registry, m: Model, data: JsValue)
    ensures PushPayload(host, reg, m, data).Ok? <==>
      (|m.fields| == 0 || !IsPrimitive(data)) && WritesSucceed(host, reg, m, data, 0)
  {
    if IsPrimitive(data) {
      if |m.fields| > 0 {
        PrimitivePayloadThrows(host, reg, m, data);
      }
    } else {
      PushFromSucceeds(host, reg, m, data, 0);
    }
  }

  /** A relation given anything but an instance of its class stores a new
      instance of the class that has ingested that input. */
  lemma AdoptBuildsFromPayload(host: Host, reg: Registry, t: ClassName, v: JsValue)
    requires Adopt(host, reg, t, v).Ok? && !IsInstanceOf(v, t)
    ensures New(host, reg, t).Ok?
    ensures PushPayload(host, reg, New(host, reg, t).value, v) == Adopt(host, reg, t, v)
  {
  }

  lemma {:induction false} AdoptAllElementwise(host: Host, reg: Registry, t: ClassName, items: seq<JsValue>)
    requires AdoptAll(host, reg, t, items).Ok?
    ensures forall i :: 0 <= i < |items| ==> Adopt(host, reg, t, items[i]) == Ok(AdoptAll(host, reg, t, items).value[i])
    decreases |items|
  {
    if |items| > 0 {
      AdoptAllElementwise(host, reg, t, items[1..]);
      assert forall i :: 1 <= i < |items| ==> items[1..][i - 1] == items[i];
    }
  }

  /** A has-many relation set to an array holds, at each position, the
      element there if it is an instance of the class, and otherwise a new
      instance that has ingested it. */
  lemma HasManyElementwise(host: Host, reg: Registry, h: HasMany, v: JsValue, i: nat)
    requires HasManySet(host, reg, h, v).Ok? && !v.Null?
    requires i < |Elements(v)|
    ensures IsInstanceOf(Elements(v)[i], h.target) ==>
      HasManySet(host, reg, h, v).value.value.members[i] == Elements(v)[i].model
    ensures !IsInstanceOf(Elements(v)[i], h.target) ==>
      New(host, reg, h.target).Ok? &&
      PushPayload(host, reg, New(host, reg, h.target).value, Elements(v)[i])
        == Ok(HasManySet(host, reg, h, v).value.value.members[i])
  {
    AdoptAllElementwise(host, reg, h.target, Elements(v));
    if !IsInstanceOf(Elements(v)[i], h.target) {
      AdoptBuildsFromPayload(host, reg, h.target, Elements(v)[i]);
    }
  }

  /** A belongs-to relation given a payload stores a new instance that has
      ingested it. */
  lemma BelongsToBuildsFromPayload(host: Host, reg: Registry, b: BelongsTo, v: JsValue)
    requires BelongsToSet(host, reg, b, v).Ok? && !v.Null? && !IsInstanceOf(v, b.target)
    ensures New(host, reg, b.target).Ok?
    ensures PushPayload(host, reg, New(host, reg, b.target).value, v)
      == Ok(BelongsToSet(host, reg, b, v).value.value.value)
  {
    AdoptBuildsFromPayload(host, reg, b.target, v);
  }

  /** Conversely, a belongs-to relation given a payload that a new instance
      of its class ingests without error stores that instance. */
  lemma PayloadBuildsOne(host: Host, reg: Registry, b: BelongsTo, v: JsValue, blank: Model, x: Model)
    requires !v.Null? && !IsInstanceOf(v, b.target)
    requires New(host, reg, b.target) == Ok(blank)
    requires PushPayload(host, reg, blank, v) == Ok(x)
    ensures SetSlot(host, reg, BelongsToSlot(b), v) == Ok(BelongsToSlot(b.(value := Some(x))))
  {
    NewFails(host, reg, b.target);
    assert Adopt(host, reg, b.target, v) == Ok(x);
    assert BelongsToSet(host, reg, b, v) == Ok(b.(value := Some(x)));
  }
}
