/** The `Attr` container (index.js:66-110): one typed value, coerced on every
    write, with an optional default given at construction. */
module Attrs {
  import opened Results
  import opened Props
  import opened JsValues
  import opened Conversions

  /** The type invariant of an attribute: null, or a value of the kind its
      type coerces to. A type outside the five known ones never leaves null. */
  predicate Conforms(kind: AttrType, v: JsValue) {
    v.Null? ||
    match kind
    case NumberType => v.Num?
    case StringType => v.Str?
    case BooleanType => v.Bool?
    case DateType => v.Date?
    case JsonType => true
    case OtherType(_) => false
  }

  /** The input of `Number(...)` for a `number` attribute: a string has its
      first comma turned into a dot; anything else is converted as it is. */
  function NumberInput(host: Host, v: JsValue): (r: Result<Number>)
    ensures r.Err? <==> ConversionThrows(v)
  {
    if v.Str? then Ok(host.parseNum(ReplaceFirstComma(v.s))) else ToNumber(host, v)
  }

  /** Whether the `switch` of `setValue` throws on a non-null input: the
      `number` and `string` cases convert it, and the conversion throws. */
  predicate Rejects(kind: AttrType, v: JsValue) {
    (kind.NumberType? || kind.StringType?) && ConversionThrows(v)
  }

  /** What the `switch` of `setValue` stores for a non-null input; `None`
      when the type matches no case and the value is left as it was. */
  function Coerce(host: Host, kind: AttrType, v: JsValue): (r: Result<Option<JsValue>>)
    ensures r.Err? <==> Rejects(kind, v)
    ensures r.Err? ==> r.error == TypeError
    ensures r.Ok? ==> (r.value.Some? <==> !kind.OtherType?)
    ensures r.Ok? && r.value.Some? ==> Conforms(kind, r.value.value)
  {
    match kind
    case NumberType =>
      var n :- NumberInput(host, v);
      Ok(Some(Num(n)))
    case StringType =>
      var t :- ToText(host, v);
      Ok(Some(Str(t)))
    case BooleanType => Ok(Some(Bool(Truthy(v))))
    case DateType => Ok(Some(Date(host.parseDate(v))))
    case JsonType => Ok(Some(v))
    case OtherType(_) => Ok(None)
  }

  /** `Attr.setValue`. Only `null` (not `undefined`) takes the first branch;
      when the attribute has a default, that branch reads the unbound name
      `params` and throws a ReferenceError. Any other input goes through
      the `switch`, which throws when its conversion does. */
  function SetValue(host: Host, a: Attr, v: JsValue): (r: Result<Attr>)
    ensures r.Ok? ==> r.value.kind == a.kind && r.value.defaultValue == a.defaultValue
    ensures r.Err? <==> (v.Null? && a.defaultValue.Some?) || (!v.Null? && Rejects(a.kind, v))
    ensures r.Err? ==> r.error == if v.Null? then ReferenceError else TypeError
    ensures r.Ok? && v.Null? ==> r.value.value == Null
    ensures r.Ok? && Conforms(a.kind, a.value) ==> Conforms(a.kind, r.value.value)
  {
    if v.Null? then
      if a.defaultValue.Some? then Err(ReferenceError) else Ok(a.(value := Null))
    else
      var c :- Coerce(host, a.kind, v);
      match c
      case Some(x) => Ok(a.(value := x))
      case None => Ok(a)
  }

  /** Whether constructing an attribute throws on its default: a null
      default reaches the ReferenceError of `setValue`, and a default its
      type cannot convert the TypeError. */
  predicate DefaultThrows(kind: AttrType, defaultValue: Option<JsValue>) {
    defaultValue.Some? && (defaultValue.value.Null? || Rejects(kind, defaultValue.value))
  }

  /** `new Attr(type, params)`: the value starts as null and, when `params`
      has a `defaultValue` key, is then set to that default. */
  function NewAttr(host: Host, kind: AttrType, defaultValue: Option<JsValue>): (r: Result<Attr>)
    ensures r.Ok? ==> r.value.kind == kind && r.value.defaultValue == defaultValue
    ensures r.Ok? ==> Conforms(kind, r.value.value)
    ensures r.Err? <==> DefaultThrows(kind, defaultValue)
    ensures r.Err? ==> r.error == if defaultValue.value.Null? then ReferenceError else TypeError
    ensures defaultValue.None? ==> r.Ok? && r.value.value == Null
    ensures defaultValue.Some? && !DefaultThrows(kind, defaultValue) && !kind.OtherType? ==>
      r == Ok(Attr(kind, defaultValue, Coerce(host, kind, defaultValue.value).value.value))
    ensures kind.OtherType? && defaultValue != Some(Null) ==> r == Ok(Attr(kind, defaultValue, Null))
  {
    var a := Attr(kind, defaultValue, Null);
    if defaultValue.Some? then SetValue(host, a, defaultValue.value) else Ok(a)
  }

  // Properties of the coercions.

  /** A decimal comma and a decimal point store the same number, as long as
      the text has no other comma. */
  lemma CommaReadsAsPoint(host: Host, a: Attr, whole: string, fraction: string)
    requires a.kind == NumberType
    requires ',' !in whole && ',' !in fraction
    ensures SetValue(host, a, Str(whole + "," + fraction)) == SetValue(host, a, Str(whole + "." + fraction))
  {
    var withComma := whole + "," + fraction;
    var withPoint := whole + "." + fraction;
    assert withComma[..|whole|] == whole;
    assert ReplaceFirstComma(withComma) == withPoint;
    assert forall i :: 0 <= i < |withPoint| ==> withPoint[i] != ',';
    assert ReplaceFirstComma(withPoint) == withPoint;
  }

  /** Only the first comma is replaced: "1,000,5" is parsed as "1.000,5". */
  lemma OnlyFirstCommaReplaced(host: Host, a: Attr)
    requires a.kind == NumberType
    ensures SetValue(host, a, Str("1,000,5")) == Ok(a.(value := Num(host.parseNum("1.000,5"))))
  {
    assert ReplaceFirstComma("1,000,5") == "1.000,5";
  }

  /** A non-empty string of decimal digits. */
  predicate IsNumeral(s: string) {
    |s| > 0 && forall i :: 0 <= i < |s| ==> '0' <= s[i] <= '9'
  }

  /** The value of a string of decimal digits, most significant first. */
  function DecimalValue(s: string): nat
    requires forall i :: 0 <= i < |s| ==> '0' <= s[i] <= '9'
  {
    if |s| == 0 then 0 else 10 * DecimalValue(s[..|s| - 1]) + (s[|s| - 1] as int - '0' as int)
  }

  /** The largest integer up to which every integer is a double: 2^53. */
  const MaxExactInteger: nat := 9007199254740992

  /** A host whose `Number()` reads plain decimal numerals exactly, up to
      the point where doubles stop representing every integer. */
  ghost predicate ReadsDecimalNumerals(host: Host) {
    forall s {:trigger IsNumeral(s)} :: IsNumeral(s) && DecimalValue(s) <= MaxExactInteger ==>
      host.parseNum(s) == Finite(DecimalValue(s) as real)
  }

  lemma NumeralParsed(host: Host, numeral: string)
    requires ReadsDecimalNumerals(host)
    requires IsNumeral(numeral) && DecimalValue(numeral) <= MaxExactInteger
    ensures host.parseNum(numeral) == Finite(DecimalValue(numeral) as real)
  {
  }

  lemma NoCommaUnchanged(s: string)
    requires ',' !in s
    ensures ReplaceFirstComma(s) == s
  {
  }

  lemma ValueOf123()
    ensures DecimalValue("123") == 123
  {
    assert "123"[..2] == "12" && "12"[..1] == "1" && "1"[..0] == "";
  }

  /** A numeric string is stored as the number it spells. */
  lemma NumericStringStoresNumber(host: Host, a: Attr)
    requires a.kind == NumberType && ReadsDecimalNumerals(host)
    ensures SetValue(host, a, Str("123")) == Ok(a.(value := Num(Finite(123.0))))
  {
    NoCommaUnchanged("123");
    ValueOf123();
    NumeralParsed(host, "123");
  }

  /** A `boolean` attribute stores false for exactly the falsy inputs. */
  lemma BooleanStoresTruthiness(host: Host, a: Attr, v: JsValue)
    requires a.kind == BooleanType && !v.Null?
    ensures SetValue(host, a, v).Ok?
    ensures SetValue(host, a, v).value.value == Bool(false) <==>
      v.Undefined? || v == Bool(false) || v == Str("") || v == Num(Finite(0.0)) || v == Num(NaN)
  {
  }

  /** A `string` attribute stores strings unchanged and other values as text. */
  lemma StringStoresText(host: Host, a: Attr)
    requires a.kind == StringType
    ensures forall s :: SetValue(host, a, Str(s)) == Ok(a.(value := Str(s)))
    ensures SetValue(host, a, Bool(true)) == Ok(a.(value := Str("true")))
    ensures SetValue(host, a, Arr([])) == Ok(a.(value := Str("")))
    ensures SetValue(host, a, Obj([])) == Ok(a.(value := Str(ObjectTag)))
  {
    assert ToText(host, Arr([])) == JoinText(host, []) == Ok("");
  }

  /** A `string` or `number` attribute given an object with an own
      `toString` property, directly or inside an array, throws a TypeError;
      a `json` attribute stores the object. */
  lemma OwnToStringThrows(host: Host, a: Attr, x: JsValue)
    ensures var o := Obj([Entry("toString", x)]);
      (a.kind == StringType || a.kind == NumberType) ==>
        SetValue(host, a, o) == Err(TypeError) && SetValue(host, a, Arr([Null, o])) == Err(TypeError)
    ensures a.kind == JsonType ==> SetValue(host, a, Obj([Entry("toString", x)])) == Ok(a.(value := Obj([Entry("toString", x)])))
  {
    var o := Obj([Entry("toString", x)]);
    assert Keys(o.props)[0] == "toString";
    assert [Null, o][1..] == [o] && [o][1..] == [];
    assert SomeElementThrows([Null, o]);
  }

  /** A `json` attribute stores any non-null input as it is. */
  lemma JsonStoresVerbatim(host: Host, a: Attr, v: JsValue)
    requires a.kind == JsonType && !v.Null?
    ensures SetValue(host, a, v) == Ok(a.(value := v))
  {
  }

  /** Clearing an attribute with no default stores null; clearing one with a
      default throws. */
  lemma NullClears(host: Host, a: Attr)
    ensures a.defaultValue.None? ==> SetValue(host, a, Null) == Ok(a.(value := Null))
    ensures a.defaultValue.Some? ==> SetValue(host, a, Null) == Err(ReferenceError)
  {
  }

  /** The defaults of the repository's tests: `number` with default 0 reads
      0, `boolean` with default false reads false, `json` with default [] reads []. */
  lemma DefaultsApplied(host: Host)
    ensures NewAttr(host, NumberType, Some(Num(Finite(0.0)))) == Ok(Attr(NumberType, Some(Num(Finite(0.0))), Num(Finite(0.0))))
    ensures NewAttr(host, BooleanType, Some(Bool(false))) == Ok(Attr(BooleanType, Some(Bool(false)), Bool(false)))
    ensures NewAttr(host, JsonType, Some(Arr([]))) == Ok(Attr(JsonType, Some(Arr([])), Arr([])))
    ensures NewAttr(host, StringType, None) == Ok(Attr(StringType, None, Null))
  {
  }
}
