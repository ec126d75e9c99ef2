/** The JavaScript conversions `Attr` coerces with: `Boolean(v)`,
    `String(v)` and `Number(v)`. The host supplies only what depends on
    floating-point or date formatting. */
module Conversions {
  import opened Results
  import opened Props
  import opened JsValues

  /** What `String` gives for a plain object or a model object. */
  const ObjectTag := "[object Object]"

  /** `Boolean(v)`: false exactly for null, undefined, 0, NaN, "" and false. */
  predicate Truthy(v: JsValue) {
    match v
    case Null => false
    case Undefined => false
    case Num(n) => n.Infinity? || (n.Finite? && n.r != 0.0)
    case Str(s) => s != ""
    case Bool(b) => b
    case _ => true
  }

  /** Whether `String(v)` and `Number(v)` throw a TypeError. Converting an
      object calls its `toString` (and `valueOf`, which returns the object
      itself); an own `toString` property holds a data value, not a function,
      so the conversion finds no primitive and throws. An array converts
      through `join`, which converts every element other than null and
      undefined; a has-many collection is an array of model objects, and a
      model object's own properties are its fields. */
  predicate ConversionThrows(v: JsValue) {
    match v
    case Obj(props) => "toString" in Keys(props)
    case Arr(items) => SomeElementThrows(items)
    case Instance(m) => HasOwnToString(m)
    case HasManyValue(ms) => SomeMemberThrows(ms)
    case _ => false
  }

  /** Whether `join` throws on some element of `items`. */
  predicate SomeElementThrows(items: seq<JsValue>) {
    |items| > 0 && ((!IsNullish(items[0]) && ConversionThrows(items[0])) || SomeElementThrows(items[1..]))
  }

  /** Whether a model object has an own property named `toString`. */
  predicate HasOwnToString(m: Model) {
    "toString" in Keys(m.fields)
  }

  /** Whether `join` throws on some member of a has-many collection. */
  predicate SomeMemberThrows(ms: seq<Model>) {
    |ms| > 0 && (HasOwnToString(ms[0]) || SomeMemberThrows(ms[1..]))
  }

  /** `String(v)`. */
  function ToText(host: Host, v: JsValue): (r: Result<string>)
    ensures r.Err? <==> ConversionThrows(v)
    ensures r.Err? ==> r.error == TypeError
    ensures v.Str? ==> r == Ok(v.s)
  {
    match v
    case Null => Ok("null")
    case Undefined => Ok("undefined")
    case Num(n) => Ok(host.numToText(n))
    case Str(s) => Ok(s)
    case Bool(b) => Ok(if b then "true" else "false")
    case Arr(items) => JoinText(host, items)
    case Obj(props) => if "toString" in Keys(props) then Err(TypeError) else Ok(ObjectTag)
    case Date(d) => Ok(host.dateToText(d))
    case Instance(m) => if HasOwnToString(m) then Err(TypeError) else Ok(ObjectTag)
    case HasManyValue(ms) => if SomeMemberThrows(ms) then Err(TypeError) else Ok(TagList(|ms|))
  }

  /** `Array.prototype.join(',')`: null and undefined elements print as
      the empty string, and the first element that cannot be converted
      throws. */
  function JoinText(host: Host, items: seq<JsValue>): (r: Result<string>)
    ensures r.Err? <==> SomeElementThrows(items)
    ensures r.Err? ==> r.error == TypeError
  {
    if |items| == 0 then Ok("")
    else
      var first :- if IsNullish(items[0]) then Ok("") else ToText(host, items[0]);
      if |items| == 1 then Ok(first)
      else
        var rest :- JoinText(host, items[1..]);
        Ok(first + "," + rest)
  }

  /** The joined text of an array of `n` model objects. */
  function TagList(n: nat): string {
    if n == 0 then "" else if n == 1 then ObjectTag else ObjectTag + "," + TagList(n - 1)
  }

  /** `Number(v)`. Objects are converted through their text, as
      `valueOf` of a plain object, an array or a model object returns the
      object itself; a date converts to its time value. */
  function ToNumber(host: Host, v: JsValue): (r: Result<Number>)
    ensures r.Err? <==> ConversionThrows(v)
    ensures r.Err? ==> r.error == TypeError
  {
    match v
    case Null => Ok(Finite(0.0))
    case Undefined => Ok(NaN)
    case Num(n) => Ok(n)
    case Bool(b) => Ok(Finite(if b then 1.0 else 0.0))
    case Str(s) => Ok(host.parseNum(s))
    case Date(d) => Ok(if d.TimeValue? then Finite(d.ms as real) else NaN)
    case _ =>
      var t :- ToText(host, v);
      Ok(host.parseNum(t))
  }

  /** `s.replace(',', '.')`: with a string pattern only the first comma is
      replaced. */
  function ReplaceFirstComma(s: string): (r: string)
    ensures |r| == |s|
    ensures forall i :: 0 <= i < |s| ==> r[i] == if s[i] == ',' && ',' !in s[..i] then '.' else s[i]
  {
    if |s| == 0 then s
    else if s[0] == ',' then
      CommaInEveryPrefix(s);
      "." + s[1..]
    else
      var rest := ReplaceFirstComma(s[1..]);
      CommaInTailPrefix(s);
      [s[0]] + rest
  }

  lemma CommaInEveryPrefix(s: string)
    requires |s| > 0 && s[0] == ','
    ensures forall i :: 1 <= i < |s| ==> ',' in s[..i]
  {
    forall i | 1 <= i < |s|
      ensures ',' in s[..i]
    {
      assert s[..i][0] == ',';
    }
  }

  lemma CommaInTailPrefix(s: string)
    requires |s| > 0 && s[0] != ','
    ensures forall i :: 1 <= i < |s| ==> (',' in s[..i] <==> ',' in s[1..][..i - 1])
  {
    forall i | 1 <= i < |s|
      ensures ',' in s[..i] <==> ',' in s[1..][..i - 1]
    {
      assert s[..i] == [s[0]] + s[1..][..i - 1];
    }
  }
}
