/** Model classes and the construction of model objects (index.js:115-136
    and the factories `attr`, `belongsTo`, `hasMany` at index.js:195-211).
    A class is given by an explicit, ordered list of the class fields its
    constructors define, in place of the properties JavaScript enumerates. */
module Classes {
  import opened Results
  import opened Props
  import opened JsValues
  import opened Attrs

  /** What a class field is initialised with. */
  datatype FieldKind =
    | ScalarField(kind: AttrType, defaultValue: Option<JsValue>)  // attr(type, {defaultValue})
    | ToOne(target: ClassName)                                     // belongsTo(Model)
    | ToMany(target: ClassName)                                    // hasMany(Model)
    | PlainField(initial: JsValue)                                 // any other initialiser

  datatype FieldDecl = FieldDecl(name: string, kind: FieldKind)

  /** A model class: the classes it extends, nearest first, and the class
      fields its constructors define, those of base classes first. */
  datatype ModelClass = ModelClass(ancestors: seq<ClassName>, declared: seq<FieldDecl>)

  type Registry = map<ClassName, ModelClass>

  /** The invariant each container keeps: an attribute's value conforms to
      its type, a relation holds instances of its target class only. */
  predicate SlotInvariant(s: Slot) {
    match s
    case AttrSlot(a) => Conforms(a.kind, a.value)
    case BelongsToSlot(b) => b.value.Some? ==> InstanceOf(b.value.value, b.target)
    case HasManySlot(h) => h.value.Many? ==> forall i :: 0 <= i < |h.value.members| ==> InstanceOf(h.value.members[i], h.target)
    case PlainSlot(_) => true
  }

  predicate ModelInvariant(m: Model) {
    forall j :: 0 <= j < |m.fields| ==> SlotInvariant(m.fields[j].val)
  }

  /** A container as it is right after construction: a relation is empty
      (a has-many relation holds an empty collection). */
  predicate FreshSlot(s: Slot) {
    match s
    case AttrSlot(a) => Conforms(a.kind, a.value)
    case BelongsToSlot(b) => b.value.None?
    case HasManySlot(h) => h.value == Many([])
    case PlainSlot(_) => true
  }

  /** An attribute declaration whose default makes its construction throw. */
  predicate ThrowingDefault(d: FieldDecl) {
    d.kind.ScalarField? && DefaultThrows(d.kind.kind, d.kind.defaultValue)
  }

  function DeclNames(decls: seq<FieldDecl>): (ns: seq<string>)
    ensures |ns| == |decls|
    ensures forall i :: 0 <= i < |decls| ==> ns[i] == decls[i].name
  {
    seq(|decls|, i requires 0 <= i < |decls| => decls[i].name)
  }

  /** The container a class field initialiser creates. */
  function MakeSlot(host: Host, k: FieldKind): (r: Result<Slot>)
    ensures r.Ok? ==> FreshSlot(r.value)
    ensures r.Err? <==> k.ScalarField? && DefaultThrows(k.kind, k.defaultValue)
  {
    match k
    case ScalarField(kind, d) =>
      var a :- NewAttr(host, kind, d);
      Ok(AttrSlot(a))
    case ToOne(t) => Ok(BelongsToSlot(BelongsTo(t, None)))
    case ToMany(t) => Ok(HasManySlot(HasMany(t, Many([]))))
    case PlainField(v) => Ok(PlainSlot(v))
  }

  /** Defines the class fields in order on the object under construction.
      Defining a property the object already has replaces its value and
      keeps its position. */
  function DefineFields(host: Host, fs: seq<Entry<Slot>>, decls: seq<FieldDecl>): (r: Result<seq<Entry<Slot>>>)
    ensures r.Ok? ==> Keys(r.value) == AddKeys(Keys(fs), DeclNames(decls))
    ensures r.Ok? && DistinctKeys(fs) ==> DistinctKeys(r.value)
    ensures r.Ok? && AllFresh(fs) ==> AllFresh(r.value)
    decreases |decls|
  {
    if |decls| == 0 then Ok(fs)
    else
      var s :- MakeSlot(host, decls[0].kind);
      assert DeclNames(decls)[1..] == DeclNames(decls[1..]);
      assert Keys(Put(fs, decls[0].name, s)) == if decls[0].name in Keys(fs) then Keys(fs) else Keys(fs) + [decls[0].name];
      PutKeepsFresh(fs, decls[0].name, s);
      DefineFields(host, Put(fs, decls[0].name, s), decls[1..])
  }

  predicate AllFresh(fs: seq<Entry<Slot>>) {
    forall j :: 0 <= j < |fs| ==> FreshSlot(fs[j].val)
  }

  lemma PutKeepsFresh(fs: seq<Entry<Slot>>, k: string, s: Slot)
    ensures AllFresh(fs) && FreshSlot(s) ==> AllFresh(Put(fs, k, s))
  {
    match Find(fs, k)
    case Some(i) => assert Put(fs, k, s) == fs[i := Entry(k, s)];
    case None => assert Put(fs, k, s) == fs + [Entry(k, s)];
  }

  lemma {:induction false} DefineFieldsFails(host: Host, fs: seq<Entry<Slot>>, decls: seq<FieldDecl>)
    ensures DefineFields(host, fs, decls).Err? <==> exists i :: 0 <= i < |decls| && ThrowingDefault(decls[i])
    decreases |decls|
  {
    if |decls| > 0 {
      if !ThrowingDefault(decls[0]) {
        var s := MakeSlot(host, decls[0].kind).value;
        DefineFieldsFails(host, Put(fs, decls[0].name, s), decls[1..]);
        if exists i :: 0 <= i < |decls| && ThrowingDefault(decls[i]) {
          var i :| 0 <= i < |decls| && ThrowingDefault(decls[i]);
          assert decls[1..][i - 1] == decls[i];
        }
        if exists i :: 0 <= i < |decls[1..]| && ThrowingDefault(decls[1..][i]) {
          var i :| 0 <= i < |decls[1..]| && ThrowingDefault(decls[1..][i]);
          assert decls[i + 1] == decls[1..][i];
        }
      }
    }
  }

  /** The property the `Model` constructor defines before any class field. */
  const IdField: Entry<Slot> := Entry("id", AttrSlot(Attr(StringType, None, Null)))

  /** The property names of an instance of class `c`, in enumeration order. */
  function ClassFieldNames(reg: Registry, c: ClassName): seq<string>
    requires c in reg
  {
    AddKeys(["id"], DeclNames(reg[c].declared))
  }

  /** `new C()`: the `id` string attribute first, then the class fields.
      Throws when `C` is not a model class, and when a field's default
      makes its attribute throw. */
  function New(host: Host, reg: Registry, c: ClassName): (r: Result<Model>)
    ensures c !in reg ==> r == Err(TypeError)
    ensures r.Ok? ==> c in reg
    ensures r.Ok? ==> r.value.lineage == [c] + reg[c].ancestors
    ensures r.Ok? ==> Keys(r.value.fields) == ClassFieldNames(reg, c)
    ensures r.Ok? ==> DistinctKeys(r.value.fields)
    ensures r.Ok? ==> AllFresh(r.value.fields)
  {
    if c !in reg then Err(TypeError)
    else
      assert Keys([IdField]) == ["id"];
      var fields :- DefineFields(host, [IdField], reg[c].declared);
      Ok(Model([c] + reg[c].ancestors, fields))
  }

  /** Reading `obj[name]` through the proxy: a container answers with its
      value, a raw property with itself, a missing one with undefined. */
  function Get(m: Model, name: string): (r: JsValue)
    ensures name !in Keys(m.fields) ==> r == Undefined
  {
    match Find(m.fields, name)
    case None => Undefined
    case Some(i) => SlotValue(m.fields[i].val)
  }

  // Properties of construction.

  /** Construction throws exactly when the class is not a model class or
      one of its fields has a default its attribute throws on: null, or
      a value its type cannot convert. */
  lemma NewFails(host: Host, reg: Registry, c: ClassName)
    ensures New(host, reg, c).Err? <==>
      c !in reg || exists i :: 0 <= i < |reg[c].declared| && ThrowingDefault(reg[c].declared[i])
  {
    if c in reg {
      DefineFieldsFails(host, [IdField], reg[c].declared);
    }
  }

  lemma FreshSlotKeepsInvariant(s: Slot)
    requires FreshSlot(s)
    ensures SlotInvariant(s)
  {
  }

  /** A new instance is an instance of its class, its first property is
      `id`, and every container in it is empty or holds its default. */
  lemma {:induction false} NewInstanceShape(host: Host, reg: Registry, c: ClassName)
    requires New(host, reg, c).Ok?
    ensures InstanceOf(New(host, reg, c).value, c)
    ensures ModelInvariant(New(host, reg, c).value)
    ensures |New(host, reg, c).value.fields| >= 1 && New(host, reg, c).value.fields[0].key == "id"
  {
    var m := New(host, reg, c).value;
    AllFreshKeepsInvariant(m);
    IdComesFirst(DeclNames(reg[c].declared));
    assert Keys(m.fields)[0] == m.fields[0].key;
  }

  lemma AllFreshKeepsInvariant(m: Model)
    requires AllFresh(m.fields)
    ensures ModelInvariant(m)
  {
    forall j | 0 <= j < |m.fields|
      ensures SlotInvariant(m.fields[j].val)
    {
      FreshSlotKeepsInvariant(m.fields[j].val);
    }
  }

  lemma IdComesFirst(names: seq<string>)
    ensures |AddKeys(["id"], names)| >= 1 && AddKeys(["id"], names)[0] == "id"
  {
    AddKeysKeepsPrefix(["id"], names);
    assert AddKeys(["id"], names)[..1] == ["id"];
  }

  /** The containers the declarations create, one per declaration, in order. */
  function Slots(host: Host, decls: seq<FieldDecl>): (r: seq<Entry<Slot>>)
    requires forall i :: 0 <= i < |decls| ==> !ThrowingDefault(decls[i])
    ensures |r| == |decls|
  {
    seq(|decls|, i requires 0 <= i < |decls| && !ThrowingDefault(decls[i]) => Entry(decls[i].name, MakeSlot(host, decls[i].kind).value))
  }

  lemma DefineFieldsStep(host: Host, fs: seq<Entry<Slot>>, decls: seq<FieldDecl>)
    requires |decls| > 0 && decls[0].name !in Keys(fs)
    requires forall i :: 0 <= i < |decls| ==> !ThrowingDefault(decls[i])
    ensures DefineFields(host, fs, decls) == DefineFields(host, fs + [Slots(host, decls)[0]], decls[1..])
  {
    var e := Slots(host, decls)[0];
    assert MakeSlot(host, decls[0].kind) == Ok(e.val);
    PutNew(fs, e.key, e.val);
  }

  lemma TailNamesFresh(fs: seq<Entry<Slot>>, decls: seq<FieldDecl>, e: Entry<Slot>)
    requires |decls| > 0 && e.key == decls[0].name
    requires Distinct(DeclNames(decls))
    requires forall i :: 0 <= i < |decls| ==> decls[i].name !in Keys(fs)
    ensures Distinct(DeclNames(decls[1..]))
    ensures forall i :: 0 <= i < |decls[1..]| ==> decls[1..][i].name !in Keys(fs + [e])
  {
    assert DeclNames(decls)[1..] == DeclNames(decls[1..]);
    forall i | 0 <= i < |decls[1..]|
      ensures decls[1..][i].name !in Keys(fs + [e])
    {
      assert DeclNames(decls)[0] != DeclNames(decls)[i + 1];
      assert Keys(fs + [e]) == Keys(fs) + [e.key];
    }
  }

  lemma SlotsCons(host: Host, fs: seq<Entry<Slot>>, decls: seq<FieldDecl>)
    requires |decls| > 0
    requires forall i :: 0 <= i < |decls| ==> !ThrowingDefault(decls[i])
    ensures fs + [Slots(host, decls)[0]] + Slots(host, decls[1..]) == fs + Slots(host, decls)
  {
    assert Slots(host, decls) == [Slots(host, decls)[0]] + Slots(host, decls[1..]);
  }

  lemma {:induction false} DefineFieldsAppends(host: Host, fs: seq<Entry<Slot>>, decls: seq<FieldDecl>)
    requires Distinct(DeclNames(decls))
    requires forall i :: 0 <= i < |decls| ==> decls[i].name !in Keys(fs)
    requires forall i :: 0 <= i < |decls| ==> !ThrowingDefault(decls[i])
    ensures DefineFields(host, fs, decls) == Ok(fs + Slots(host, decls))
    decreases |decls|
  {
    if |decls| > 0 {
      var e := Slots(host, decls)[0];
      DefineFieldsStep(host, fs, decls);
      TailNamesFresh(fs, decls, e);
      DefineFieldsAppends(host, fs + [e], decls[1..]);
      SlotsCons(host, fs, decls);
    } else {
      assert fs + Slots(host, decls) == fs;
    }
  }

  /** A class whose fields have pairwise different names other than `id`
      and no throwing default constructs `id` followed by one fresh container
      per declared field, in declaration order. */
  lemma NewShape(host: Host, reg: Registry, c: ClassName)
    requires c in reg
    requires Distinct(DeclNames(reg[c].declared))
    requires forall i :: 0 <= i < |reg[c].declared| ==> reg[c].declared[i].name != "id"
    requires forall i :: 0 <= i < |reg[c].declared| ==> !ThrowingDefault(reg[c].declared[i])
    ensures New(host, reg, c) == Ok(Model([c] + reg[c].ancestors, [IdField] + Slots(host, reg[c].declared)))
  {
    assert Keys([IdField]) == ["id"];
    DefineFieldsAppends(host, [IdField], reg[c].declared);
  }

  /** Reading a property of an object without repeated keys answers the
      value of the container that stands under that name. */
  lemma GetAt(m: Model, i: nat)
    requires DistinctKeys(m.fields) && i < |m.fields|
    ensures Get(m, m.fields[i].key) == SlotValue(m.fields[i].val)
  {
    FindDistinct(m.fields, i);
  }
}
