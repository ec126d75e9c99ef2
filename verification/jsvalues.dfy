/** The JavaScript values that flow through the model layer, and the model
    objects themselves. The two are one mutually recursive family: a payload
    may hold a model instance, and a model's fields hold payload values. */
module JsValues {
  import opened Results
  import opened Props

  type ClassName = string

  /** A JavaScript number. Floating-point rounding is left to the host's
      parser and printer; only the distinctions the model branches on are kept. */
  datatype Number = Finite(r: real) | NaN | Infinity(negative: bool)

  /** A JavaScript `Date`: a time value in milliseconds, or an invalid date. */
  datatype DateValue = TimeValue(ms: int) | InvalidDate

  /** The `type` string given to `attr`. A string outside the five known
      ones is accepted by the constructor and matches no coercion case. */
  datatype AttrType = NumberType | StringType | BooleanType | DateType | JsonType | OtherType(name: string)

  datatype JsValue =
    | Null
    | Undefined
    | Num(n: Number)
    | Str(s: string)
    | Bool(b: bool)
    | Arr(items: seq<JsValue>)
    | Obj(props: seq<Entry<JsValue>>)
    | Date(date: DateValue)
    | Instance(model: Model)              // a model object (the proxy around it)
    | HasManyValue(members: seq<Model>)   // the array class a has-many relation stores

  /** An `Attr` container: its type, the `defaultValue` option if one was
      given (`None` when the options object has no such key), and its value. */
  datatype Attr = Attr(kind: AttrType, defaultValue: Option<JsValue>, value: JsValue)

  datatype BelongsTo = BelongsTo(target: ClassName, value: Option<Model>)

  datatype HasMany = HasMany(target: ClassName, value: ManyValue)

  /** A has-many relation's value: null, or its ordered collection. */
  datatype ManyValue = NullMany | Many(members: seq<Model>)

  /** What a model object's own property holds: a container, or a raw value. */
  datatype Slot =
    | AttrSlot(attr: Attr)
    | BelongsToSlot(one: BelongsTo)
    | HasManySlot(many: HasMany)
    | PlainSlot(raw: JsValue)

  /** A model object: its class followed by the classes it extends, and its
      own properties in enumeration order. */
  datatype Model = Model(lineage: seq<ClassName>, fields: seq<Entry<Slot>>)

  /** The collaborators the model layer calls but does not define: `Number()`
      on strings, number printing, `moment(v).toDate()`,
      `moment(d).format('YYYY-MM-DDTHH:mm:ss')` and `String(date)`. */
  datatype Host = Host(
    parseNum: string -> Number,
    numToText: Number -> string,
    parseDate: JsValue -> DateValue,
    formatDate: DateValue -> string,
    dateToText: DateValue -> string)

  /** `x instanceof C`. */
  predicate InstanceOf(m: Model, c: ClassName) {
    c in m.lineage
  }

  /** `x == null`: true of both null and undefined. */
  predicate IsNullish(v: JsValue) {
    v.Null? || v.Undefined?
  }

  /** What reading a property backed by `s` yields through the proxy: a
      container answers with its value (for an attribute, `Attr.getValue`),
      a raw property with itself. */
  function SlotValue(s: Slot): JsValue {
    match s
    case AttrSlot(a) => a.value
    case BelongsToSlot(b) => if b.value.Some? then Instance(b.value.value) else Null
    case HasManySlot(h) => if h.value.Many? then HasManyValue(h.value.members) else Null
    case PlainSlot(raw) => raw
  }

  /** `Instance` wrappers for the members of a has-many collection. */
  function Instances(ms: seq<Model>): (vs: seq<JsValue>)
    ensures |vs| == |ms|
    ensures forall i :: 0 <= i < |ms| ==> vs[i] == Instance(ms[i])
  {
    seq(|ms|, i requires 0 <= i < |ms| => Instance(ms[i]))
  }

  // Sizes: the measure on which ingestion and serialization terminate.

  function SizeOf(v: JsValue): (n: nat)
    ensures n >= 1
  {
    match v
    case Arr(items) => 2 + SizeOfAll(items)
    case Obj(props) => 2 + SizeOfProps(props)
    case Instance(m) => 1 + ModelSize(m)
    case HasManyValue(ms) => 2 + MembersSize(ms)
    case _ => 1
  }

  function SizeOfAll(vs: seq<JsValue>): nat {
    if |vs| == 0 then 0 else SizeOf(vs[0]) + SizeOfAll(vs[1..])
  }

  function SizeOfProps(ps: seq<Entry<JsValue>>): nat {
    if |ps| == 0 then 0 else SizeOf(ps[0].val) + SizeOfProps(ps[1..])
  }

  function ModelSize(m: Model): nat {
    1 + FieldsSize(m.fields)
  }

  function FieldsSize(fs: seq<Entry<Slot>>): nat {
    if |fs| == 0 then 0 else SlotSize(fs[0].val) + FieldsSize(fs[1..])
  }

  function MembersSize(ms: seq<Model>): nat {
    if |ms| == 0 then 0 else 1 + ModelSize(ms[0]) + MembersSize(ms[1..])
  }

  function SlotSize(s: Slot): nat {
    match s
    case AttrSlot(a) => 1 + SizeOf(a.value)
    case BelongsToSlot(b) => if b.value.Some? then 2 + ModelSize(b.value.value) else 2
    case HasManySlot(h) => if h.value.Many? then 3 + MembersSize(h.value.members) else 2
    case PlainSlot(raw) => 1 + SizeOf(raw)
  }

  lemma SlotValueSmaller(s: Slot)
    ensures SizeOf(SlotValue(s)) < SlotSize(s)
  {
  }

  lemma ItemSmaller(vs: seq<JsValue>, i: nat)
    requires i < |vs|
    ensures SizeOf(vs[i]) <= SizeOfAll(vs)
    decreases i
  {
    if i > 0 {
      ItemSmaller(vs[1..], i - 1);
    }
  }

  lemma PropSmaller(ps: seq<Entry<JsValue>>, i: nat)
    requires i < |ps|
    ensures SizeOf(ps[i].val) <= SizeOfProps(ps)
    decreases i
  {
    if i > 0 {
      PropSmaller(ps[1..], i - 1);
    }
  }

  lemma FieldSmaller(fs: seq<Entry<Slot>>, i: nat)
    requires i < |fs|
    ensures SlotSize(fs[i].val) <= FieldsSize(fs)
    decreases i
  {
    if i > 0 {
      FieldSmaller(fs[1..], i - 1);
    }
  }

  lemma MemberSmaller(ms: seq<Model>, i: nat)
    requires i < |ms|
    ensures 1 + ModelSize(ms[i]) <= MembersSize(ms)
    decreases i
  {
    if i > 0 {
      MemberSmaller(ms[1..], i - 1);
    }
  }

  lemma InstancesSize(ms: seq<Model>)
    ensures SizeOfAll(Instances(ms)) == MembersSize(ms)
    decreases |ms|
  {
    if |ms| > 0 {
      assert Instances(ms)[1..] == Instances(ms[1..]);
      InstancesSize(ms[1..]);
    }
  }
}
