/** The JavaScript values the handler reads and writes: what JSON.parse can
    return, the objects it builds itself, truthiness, property access with
    and without optional chaining, and the exceptions it catches. */
module JsValues {
  import opened Wrappers

  /** A value JSON.parse can produce. `undefined` is not a JsValue: a
      property that is absent reads as None. */
  datatype JsValue =
    | JNull
    | JBool(b: bool)
    | JNum(n: real)
    | JStr(s: string)
    | JArr(items: seq<JsValue>)
    | JObj(fields: map<string, JsValue>)

  /** JavaScript truthiness of a possibly undefined value: undefined, null,
      false, 0 and "" are falsy, everything else (including empty arrays and
      objects) is truthy. */
  predicate Truthy(v: Option<JsValue>)
    ensures Truthy(v) ==> v.Some? && !v.value.JNull?
    ensures v.Some? && (v.value.JArr? || v.value.JObj?) ==> Truthy(v)
  {
    match v
    case None => false
    case Some(JNull) => false
    case Some(JBool(b)) => b
    case Some(JNum(n)) => n != 0.0
    case Some(JStr(s)) => s != []
    case Some(_) => true
  }

  /** `v.key` for a value that is neither null nor undefined. Only objects
      have the own properties the handler asks for; booleans, numbers,
      strings and arrays have none of them on their prototypes. */
  function Member(v: JsValue, key: string): (r: Option<JsValue>)
    requires !v.JNull?
    ensures r.Some? <==> v.JObj? && key in v.fields
    ensures r.Some? ==> r.value == v.fields[key]
  {
    if v.JObj? && key in v.fields then Some(v.fields[key]) else None
  }

  /** `v?.key`: undefined when `v` is null or undefined. */
  function OptMember(v: Option<JsValue>, key: string): (r: Option<JsValue>)
    ensures v.None? || v == Some(JNull) ==> r.None?
    ensures r.Some? <==> v.Some? && v.value.JObj? && key in v.value.fields
    ensures r.Some? ==> r.value == v.value.fields[key]
  {
    match v
    case None => None
    case Some(JNull) => None
    case Some(x) => Member(x, key)
  }

  /** `v?.[0]`: the first element of an array, the property "0" of an
      object, the first character of a string, otherwise undefined. */
  function OptFirst(v: Option<JsValue>): (r: Option<JsValue>)
    ensures r.Some? ==> v.Some? && (v.value.JArr? || v.value.JObj? || v.value.JStr?)
    ensures v.Some? && v.value.JArr? ==>
      (r.Some? <==> v.value.items != []) && (r.Some? ==> r.value == v.value.items[0])
    ensures v.Some? && v.value.JObj? ==>
      (r.Some? <==> "0" in v.value.fields) && (r.Some? ==> r.value == v.value.fields["0"])
    ensures v.Some? && v.value.JStr? ==>
      (r.Some? <==> v.value.s != []) && (r.Some? ==> r.value == JStr([v.value.s[0]]))
  {
    match v
    case Some(JArr(items)) => if items != [] then Some(items[0]) else None
    case Some(JObj(fields)) => if "0" in fields then Some(fields["0"]) else None
    case Some(JStr(s)) => if s != [] then Some(JStr([s[0]])) else None
    case _ => None
  }

  /** The exceptions the handler's outer `catch` can receive. */
  datatype Thrown =
    | NullRead(property: string)  // TypeError: a property read on null
    | UriMalformed                // URIError from decodeURIComponent
    | NoPrimitive                 // TypeError: an object that cannot become a string
    | Rejected(text: string)      // a rejected promise, already converted by String(e)

  const TypeErrorPrefix := "TypeError: "
  const NullReadPrefix := "TypeError: Cannot read properties of null (reading '"
  const NoPrimitiveText := "TypeError: Cannot convert object to primitive value"
  const UriMalformedText := "URIError: URI malformed"

  /** `String(e)` for a caught exception, with the messages of Node's engine. */
  function Describe(e: Thrown): (text: string)
    ensures e.NullRead? || e.NoPrimitive? ==> TypeErrorPrefix <= text
    ensures e.NullRead? ==> text == NullReadPrefix + e.property + "')"
    ensures e.NoPrimitive? ==> text == NoPrimitiveText
    ensures e.UriMalformed? ==> text == UriMalformedText
    ensures e.Rejected? ==> text == e.text
  {
    match e
    case NullRead(p) => NullReadPrefix + p + "')"
    case NoPrimitive => NoPrimitiveText
    case UriMalformed => UriMalformedText
    case Rejected(text) => text
  }

  /** The engine's own exceptions are told apart by their text: two that
      read the same are the same exception, down to the property name. */
  lemma DescribeDistinguishes(e1: Thrown, e2: Thrown)
    requires !e1.Rejected? && !e2.Rejected?
    requires Describe(e1) == Describe(e2)
    ensures e1 == e2
  {
    var n := |NullReadPrefix|;
    if e1.NullRead? && e2.NullRead? {
      var t1 := Describe(e1);
      assert e1.property == t1[n..|t1| - 2];
      assert e2.property == t1[n..|t1| - 2];
    }
  }

  /** Whether the template literal `${v}` turns `v` into a string without
      throwing. An object parsed from JSON has only data properties, so its
      own `toString`, which is not callable, leaves only the inherited
      `valueOf`, which returns the object itself: the conversion throws. An
      array converts through `join`, which converts each item. */
  predicate Stringifies(v: JsValue)
    decreases v
    ensures v.JObj? ==> (Stringifies(v) <==> "toString" !in v.fields)
    ensures v.JArr? ==> (Stringifies(v) <==> forall i :: 0 <= i < |v.items| ==> Stringifies(v.items[i]))
    ensures !v.JObj? && !v.JArr? ==> Stringifies(v)
  {
    match v
    case JObj(fields) => "toString" !in fields
    case JArr(items) => forall i :: 0 <= i < |items| ==> Stringifies(items[i])
    case _ => true
  }

  /** A flat object literal with string values, `{k1: v1, ...}`. */
  function StrObject(fields: map<string, string>): (o: JsValue)
    ensures o.JObj? && o.fields.Keys == fields.Keys
    ensures forall k :: k in fields ==> o.fields[k] == JStr(fields[k])
  {
    JObj(map k | k in fields :: JStr(fields[k]))
  }
}
