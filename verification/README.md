# js-models in Dafny

A model of the core of `js-models`, a small JavaScript library of data
models. It covers:

- **Declaring classes.** A class extends `Model` and declares typed
  attributes (`attr('number', {defaultValue: 0})`), to-one relations
  (`belongsTo(Client)`) and to-many relations (`hasMany(Product)`).
- **The proxy.** Every instance is wrapped in a proxy. Reading a property
  answers the container's value, and writing one goes through the
  container's `setValue`.
- **Ingesting a server payload** (`pushPayload`). The payload uses
  snake_case keys; the model's property names are camelCase.
- **Serializing back** (`serialize`) to the payload's key format.

The model is purely functional. An instance is a `Model` value: the
lineage of classes it is an `instanceof`, and its own properties in
enumeration order. Each property holds a container: an attribute, a
to-one relation, a to-many relation, or a raw value.

Every operation returns a new instance instead of mutating one. Errors
the JavaScript code would throw are `Err(TypeError)` or
`Err(ReferenceError)`. JavaScript values form one datatype, `JsValue`, and
an object's properties are an ordered list of keyed entries.

Things the code delegates are parameters of type `Host`. The model makes
no claim about them beyond function-hood (equal inputs give equal outputs):

- `Number(string)`;
- `String(number)`;
- `String(date)`;
- parsing a date with `moment`;
- formatting a date as `YYYY-MM-DDTHH:mm:ss`.

The modules follow the structure of `index.js`:

| module | file | models |
|---|---|---|
| `Results` | results.dfy | `Option`, and `Result` with the two exceptions the code can throw |
| `Props` | props.dfy | own properties of a JavaScript object: lookup, assignment, key order |
| `JsValues` | jsvalues.dfy | values, containers (`Attr`, `BelongsToRelation`, `HasManyRelation`), instances, the host; reading a container (`Attr.getValue` included) |
| `Conversions` | conversions.dfy | `Boolean(v)`, `String(v)`, `Number(v)` and the TypeError the last two throw, `replace(',', '.')` |
| `Attrs` | attrs.dfy | the `Attr` class |
| `Classes` | classes.dfy | model classes, `new C()`, the proxy's `get` trap |
| `KeyMapper` | keymapper.dfy | `convertLocalKeyToServerKey` |
| `Ingestion` | ingestion.dfy | `pushPayload`, both relations' `setValue`, the proxy's `set` trap |
| `Serialization` | serialization.dfy | `serialize` |
| `Scenarios` | scenarios.dfy | the classes `Client`, `Product`, `Order` of the repository's tests, and what the tests expect |

Setting an attribute with a default to `null` is modelled as a
`ReferenceError`. At index.js:79-80 the code tests `this.params` but then
assigns `params.defaultValue`, and `params` is not bound in `setValue`.
The evident intent is `this.params.defaultValue`: a reset to the default.
The model follows the code as written.

## Model

| member | source | states |
|---|---|---|
| KeyMapper.ServerKey | index.js:138-142 | the payload key has no upper-case letter |
| KeyMapper.ServerKeyByCharacter | index.js:138-142 | splitting on `/\.?(?=[A-Z])/`, joining with `_` and lower-casing equals a per-character rule: every capital after the first character gets a `_` before it, a `.` right before a capital is dropped, and every character is lower-cased |
| KeyMapper.LowerCaseNameUnchanged | index.js:138-142 | a name without capitals, dots included, is its own payload key |
| KeyMapper.ServerKeyIdempotent | index.js:138-142 | mapping a payload key again changes nothing |
| KeyMapper.TwoWords | index.js:138-142 | a name of two words without dots, the second starting with a capital, maps to the first word, `_`, and the second word lower-cased |
| KeyMapper.ServerKeyOfIsValid | test.js:48 | `isValid` is read from `is_valid` |
| KeyMapper.ServerKeyOfCustomArray | test.js:61 | `customArray` is read from `custom_array` |
| KeyMapper.ServerKeyOfAcronym | index.js:141 | each capital of an acronym starts its own piece: `userID` maps to `user_i_d` |
| KeyMapper.ServerKeyOfDottedName | index.js:141 | the optional dot before a capital is consumed by the separator: `a.B` maps to `a_b` |
| Conversions.ReplaceFirstComma | index.js:89 | the text keeps its length, the first comma becomes a point, and every other character is kept |
| Conversions.ToText | index.js:91-93 | `String(v)` throws a TypeError exactly when `v` is an object with an own `toString`, an array with such an element other than null and undefined, or a model object or collection with a field named `toString`; a string converts to itself |
| Conversions.JoinText | index.js:89-93 | joining an array throws a TypeError exactly when some element other than null and undefined throws on conversion |
| Conversions.ToNumber | index.js:88-90 | `Number(v)` throws a TypeError exactly when `String(v)` does |
| Attrs.Coerce | index.js:87-104 | a string or number attribute throws a TypeError exactly on an input whose conversion throws, and no other type throws; a type outside the five known ones stores nothing, and the stored value always has the attribute's type |
| Attrs.SetValue | index.js:77-105 | the type and options are kept; the call throws a ReferenceError exactly when the input is null and the attribute has a default, and a TypeError exactly when a non-null input fails the conversion of a string or number attribute; null without a default stores null; the value keeps the attribute's type |
| Attrs.NewAttr | index.js:67-75 | the value starts null; a non-null default is stored as the attribute's type coerces it, except that a type outside the known five stays null; construction throws exactly when the default is null or a value the attribute's type fails to convert |
| Attrs.CommaReadsAsPoint | index.js:89 | a decimal comma and a decimal point store the same number when the text has no other comma |
| Attrs.OnlyFirstCommaReplaced | index.js:89 | `"1,000,5"` is read as `"1.000,5"` |
| Attrs.NumericStringStoresNumber | index.js:88-90 | with a host that reads decimal numerals up to 2^53 exactly, `"123"` stores the number 123 |
| Attrs.BooleanStoresTruthiness | index.js:97-99 | a boolean attribute stores false exactly for undefined, false, `""`, 0 and NaN |
| Attrs.StringStoresText | index.js:91-93 | strings are stored unchanged; true becomes `"true"`, `[]` becomes `""` and `{}` becomes `"[object Object]"` |
| Attrs.JsonStoresVerbatim | index.js:100-102 | a json attribute stores any non-null input as it is |
| Attrs.NullClears | index.js:78-85 | null clears an attribute without a default and throws on one with a default |
| Attrs.OwnToStringThrows | index.js:88-93 | a string or number attribute throws a TypeError on `{toString: x}` and on `[null, {toString: x}]`, and a json attribute stores `{toString: x}` as it is |
| Attrs.DefaultsApplied | index.js:72-74 | the defaults the tests use (0, false, `[]`) are the initial values |
| Classes.MakeSlot | index.js:194-211 | each factory makes an empty container: to-one holds nothing, to-many an empty collection; it throws exactly for an attribute default that is null or fails its type's conversion |
| Classes.DefineFields | test.js:5-20 | defining the class fields a subclass declares, by the rules of ES class-field definition, appends unseen names in order, keeps a redefined name where it stands, and keeps keys distinct |
| Classes.DefineFieldsFails | index.js:72-74 | defining class fields throws exactly when some declared attribute has a default that is null or fails its type's conversion |
| Classes.New | index.js:116-136 | `new C()` is an instance of `C` and its ancestors, with properties `id` and then the class fields, each container fresh; an unknown class throws a TypeError |
| Classes.NewFails | index.js:116-117 | construction throws exactly when the class is unknown or a field has a default that is null or fails its type's conversion |
| Classes.NewInstanceShape | index.js:116-118 | a new instance is `instanceof` its class, keeps every container invariant, and has `id` first |
| Classes.NewShape | index.js:116-118 | with distinct field names other than `id` and no default that throws, a new instance is `id` followed by one fresh container per declared field, in declaration order |
| Classes.Get | index.js:128-134 | reading a missing property answers undefined |
| Classes.GetAt | index.js:128-134 | reading a property answers its container's value |
| Ingestion.Probe | index.js:149 | the `in` test throws exactly on a primitive payload, and any value found is a strict part of the payload |
| Ingestion.PushPayload | index.js:144-158 | ingestion returns the same object with the same class and property names, and keeps every container invariant |
| Ingestion.PushPayloadIsPartial | index.js:144-158 | each property is written exactly when its payload key holds a value other than null and undefined, with that value; every other property is left as it was |
| Ingestion.PushPayloadSucceeds | index.js:144-158 | ingestion throws exactly when the payload is a primitive and there is a property to look up, or when some property rejects its incoming value |
| Ingestion.OnlyOneWritten | index.js:144-158 | a payload that brings a value for one property only changes that property, to what its container stores |
| Ingestion.EmptyPayloadChangesNothing | index.js:144 | ingesting `{}`, or calling without an argument, changes nothing |
| Ingestion.PrimitivePayloadThrows | index.js:149 | a primitive payload throws a TypeError |
| Ingestion.Adopt | index.js:24-28 | an instance of the target class is kept by reference; anything else becomes a new instance of the target; an unknown target throws |
| Ingestion.AdoptBuildsFromPayload | index.js:27 | a relation element that is not an instance is `new Target().pushPayload(element)` |
| Ingestion.BelongsToSet | index.js:21-29 | null clears the relation; an instance of the target is kept; anything else stores a target instance |
| Ingestion.BelongsToBuildsFromPayload | index.js:26-28 | a to-one relation given a payload stores a new target instance that has ingested it |
| Ingestion.PayloadBuildsOne | index.js:20-30 | conversely, a to-one relation given a non-null payload that a new target instance ingests without error stores exactly that instance |
| Ingestion.AdoptAll | index.js:52-58 | one member per element, in order, each an instance of the target, with instances kept by reference |
| Ingestion.AdoptAllElementwise | index.js:52-58 | each member is what adopting its element alone gives |
| Ingestion.HasManySet | index.js:46-60 | null clears the relation; anything without `forEach` throws a TypeError; an array becomes a collection of the same length whose members are target instances |
| Ingestion.HasManyElementwise | index.js:52-58 | each member is the element itself when it is an instance of the target, and otherwise a new instance that has ingested the element |
| Ingestion.SetSlot | index.js:120-127 | writing keeps the kind of container and its invariant; a raw property is overwritten |
| Ingestion.Set | index.js:120-127 | the proxy's `set` keeps the class, keeps the property names or appends a new one, and changes no other property |
| Ingestion.SetInPlace | index.js:120-127 | with distinct property names, writing a property whose container accepts the value replaces that one property in place, and the names stay distinct |
| Ingestion.SetThenGet | index.js:120-134 | reading a property back after writing it answers what its container stored; a container that throws fails the write |
| Serialization.WrittenSlotSerializes | index.js:87-104 | a container that accepted a value other than null and undefined serializes back to it: a json attribute or raw property as the value when that value is not a model object, a has-many collection or a date, a string attribute as its text, a date attribute as the formatted parsed date, a to-one relation given an instance as that instance's serialization |
| Serialization.WrittenAttrSerializes | index.js:87-99 | a number attribute serializes as the coerced number, a boolean attribute as the truthiness of its input, and an attribute of an unknown type as its old value |
| Serialization.WrittenOneSerializes | index.js:21-29 | a to-one relation given a payload serializes as the target instance that adopting the payload made |
| Serialization.HasManySerializes | index.js:46-60 | a to-many relation serializes as an array with one entry per element: the serialization of the instance adopting that element made |
| Serialization.Serialize | index.js:160-188 | without a serializer, the output is an object whose keys are the payload keys of the properties, in order of first appearance |
| Serialization.SerializeFields | index.js:163-181 | the loop adds each property's payload key once, in property order |
| Serialization.SerializeMembers | index.js:170-175 | a collection serializes to an array of the same length |
| Serialization.SerializedShape | index.js:160-188 | with distinct payload keys, the output has exactly one entry per property, in order: its payload key and its serialized value |
| Serialization.SharedKeyKeepsLast | index.js:163-181 | in any object, properties that share a payload key give one output entry; it stands after the distinct payload keys of the properties before the first of them, and holds the serialized value of the last of them |
| Serialization.FirstWritePosition | index.js:163-164 | the first property with a payload key puts that key after the distinct payload keys of the properties before it, as assigning a new key to a plain object appends it |
| Serialization.LastWriteValue | index.js:163-181 | the value under a payload key is the serialized value of the last property with that key, as re-assigning a key of a plain object replaces its value |
| Serialization.SerializerAppliedAtTop | index.js:183-187 | the caller's serializer is applied once, to the plain output |
| Serialization.SerializedValues | index.js:166-180 | model objects serialize recursively without the serializer; collections element by element, in order; dates through the formatter; anything else unchanged |
| Serialization.IngestedPropertySerializes | index.js:144-188 | an ingested property is written back under its payload key: a json attribute or raw property as the payload value when that value is not a model object, a has-many collection or a date, a string attribute as text, a date attribute as the formatted parsed date, and a to-one relation given an instance as that instance's serialization |
| Scenarios.NewOrder | test.js:24-40 | a new `Order` reads number 0, isValid false, and null name and client; it has no products |
| Scenarios.NameThenClear | test.js:26-36 | a name reads back; clearing it returns the order to exactly its fresh state, where the name reads null and the number keeps its default |
| Scenarios.ClientThenClear | test.js:38-40 | a client object is kept as it is; clearing it returns the order to exactly its fresh state, where the client reads null |
| Scenarios.OrderServerKeys | test.js:44-64 | the payload keys of an order are distinct, and only `isValid` is renamed, to `is_valid` |
| Scenarios.PayloadNumber | test.js:49-71 | with a host that reads decimal numerals up to 2^53 exactly, `number: '123'` is ingested as 123, and no other property of the order changes |
| Ingestion.AttributesAccept | index.js:77-105 | an object made only of attributes accepts a payload exactly when no value it brings for a string or number attribute fails conversion; null and undefined are never written |
| Ingestion.ConvertiblePayloadAccepted | index.js:144-158 | an object made only of attributes accepts every payload whose values all convert |
| Ingestion.TextIngested | index.js:144-158 | a string attribute whose payload key brings a string reads that string after ingestion |
| Scenarios.ClientIngested | test.js:58-63 | a new `Client` that ingests `{id: 1, name: 'Client1'}` succeeds and reads name `Client1` |
| Scenarios.ClientFromPayload | test.js:66-72 | `order.client = {id: 1, name: 'Client1'}` stores a `Client` instance whose name reads `Client1` |
| Scenarios.FreshOrderSerializes | index.js:160-188 | a new order serializes to its defaults under the payload keys, with an empty product array |

## Left out

- Object identity and aliasing are not modelled. Keeping an instance "by reference" means the same `Model` value. Mutating a collection in place (`order.products.push(...)`, test.js:28) has no counterpart.
- Cyclic object graphs are not modelled: payloads and instances are finite trees.
- The `Proxy` and `for...in` reflection are replaced by explicit data. The model uses a registry of classes, each with its ancestors and its ordered class-field declarations. Enumeration order is the declaration order, after `id`.
- Inherited properties are not modelled, and neither is the ordering JavaScript gives integer-like keys. The `in` test at index.js:149 also sees properties a payload inherits: a field named `constructor` or `toString` finds a value in every object payload. `Ingestion.Probe` looks at the payload's own properties only.
- `Number(string)`, `String(number)`, `moment(value).toDate()` and `moment(date).format(...)` are `Host` parameters, because their parsing and printing rules are not part of the library.
- `toLowerCase` is modelled for ASCII capitals only, because Unicode case mapping is outside the library.
- The key mapping is one function, `KeyMapper.ServerKey`. In the library it is a default method (index.js:138-142) called on the object (index.js:146, 164) and on nested objects (index.js:167, 172), so a class can override it. Overriding is not modelled.
- `moment(undefined)` answers the current time, so `order.date = undefined` or `attr('date', {defaultValue: undefined})` stores a different date at each call. The model's `parseDate` is a function of its argument, so it gives one fixed date for `undefined`. Clocks are not modelled.
- An object whose exception is thrown part-way through is not modelled. The model returns only the error, not the partly written object. This covers `pushPayload`, construction, and a relation's `setValue` through the proxy: index.js:50 installs a new empty collection before `forEach` (index.js:52-58) can throw, so `order.products = 5` or `= [null]` leaves an empty or partial collection behind, while `Ingestion.Set` and `Ingestion.HasManySet` return only the error.
- Functions as property values are not modelled, so `String(v)` and `Number(v)` throw only through an own `toString` that holds data. A callable `toString`, `valueOf` or `Symbol.toPrimitive` that returns a primitive or throws is outside the value model. So is a host conversion that throws: `moment(value)` in the date case is a total `Host` function.
- `attr(type, options)` with an `options` that is not an object is not modelled. Only "has a `defaultValue` key" and "has none" are represented.
- Attrs.SetValue: on a null input with a default, it returns the `ReferenceError` the code throws, not the reset to the default that `this.params.defaultValue` would evidently have given.
- Serialization.Serialize: the caller's serializer is any function of the plain output. Truthy non-function serializers, which the code would call and fail on, are not modelled.
- The type declarations in index.d.ts are not modelled, because they add no behaviour.
