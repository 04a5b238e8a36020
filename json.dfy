/** Documents as org.json hands them over once parsed, and the accessors the
    services call on them. Parsing text into a tree is not modelled: a body
    carries the tree that `new JSONObject(text)` builds from it, or nothing
    when that constructor throws. */
module Json {
  import opened Wrappers
  import opened Text

  /** A JSON value; numbers are integers. An array and an object also carry
      `text`, what their `toString()` renders; org.json lays an object's keys
      out in its map's iteration order, which is left open here. */
  datatype Json =
    | JNull
    | JBool(b: bool)
    | JNum(n: int)
    | JStr(s: string)
    | JArr(items: seq<Json>, text: string)
    | JObj(fields: map<string, Json>, text: string)

  /** A `JSONObject`. */
  type Object = map<string, Json>

  /** A response body: Java's `null`, or text with its parse. */
  datatype Body = NullBody | Text(text: string, parsed: Option<Object>)

  /** `body == null || body.trim().isEmpty()`. */
  predicate IsNullOrBlankBody(body: Body)
  {
    body.NullBody? || IsBlank(body.text)
  }

  /** `JSONObject.has(key)`. */
  predicate Has(o: Object, key: string)
  {
    key in o
  }

  /** `JSONObject.optString(key, default)`: the default for a missing key or
      JSON null, and otherwise the value's `toString()`: a string as it is, a
      number or a boolean in its text form, an array or an object as JSON
      text. */
  function OptString(o: Object, key: string, default: string): (r: string)
    ensures !Has(o, key) || o[key].JNull? ==> r == default
    ensures Has(o, key) && !o[key].JNull? ==> r == ValueText(o[key])
    ensures Has(o, key) && o[key].JStr? ==> r == o[key].s
  {
    if key !in o || o[key].JNull? then default else ValueText(o[key])
  }

  /** What `toString()` gives for a non-null value. */
  function ValueText(v: Json): (r: string)
    requires !v.JNull?
    ensures v.JStr? ==> r == v.s
    ensures v.JArr? || v.JObj? ==> r == v.text
  {
    match v
    case JStr(s) => s
    case JNum(n) => IntToString(n)
    case JBool(b) => if b then "true" else "false"
    case JArr(_, text) => text
    case JObj(_, text) => text
  }

  /** org.json refuses a number written with a leading zero before another
      digit, signed or not ("0123", "-012"). */
  predicate LeadingZero(s: string)
  {
    (|s| > 1 && s[0] == '0' && IsAsciiDigit(s[1])) ||
    (|s| > 2 && s[0] == '-' && s[1] == '0' && IsAsciiDigit(s[2]))
  }

  /** `JSONObject.optInt(key, default)`: a number narrowed to `int` the way
      `Number.intValue` does it, a string of digits without a leading zero
      parsed, anything else the default. */
  function OptInt(o: Object, key: string, default: int): (r: int)
    ensures !Has(o, key) ==> r == default
    ensures IsInt32(default) ==> IsInt32(r)
    ensures Has(o, key) && o[key].JStr? && LeadingZero(o[key].s) ==> r == default
  {
    if key !in o then default
    else
      match o[key]
      case JNum(n) => Wrap32(n)
      case JStr(s) =>
        if LeadingZero(s) then default
        else
          (match ParseSignedDigits(s)
           case Some(n) => Wrap32(n)
           case None => default)
      case _ => default
  }

  /** "0123" reads as the default, while "123" reads as 123. */
  lemma OptIntRefusesLeadingZero(t: string, u: string)
    requires t == "0123" && u == "123"
    ensures OptInt(map["p" := JStr(t)], "p", 0) == 0
    ensures OptInt(map["p" := JStr(u)], "p", 0) == 123
  {
    assert LeadingZero(t);
    assert !LeadingZero(u) && AllDigits(u) && u[0] != '-';
    var one, twelve := u[..1], u[..2];
    assert twelve[..1] == one && one[..0] == "";
    assert DigitsValue(one) == 1;
    assert DigitsValue(twelve) == 12;
    assert DigitsValue(u) == 123;
  }

  /** `JSONObject.optJSONArray(key)`: the array, or null for anything else. */
  function OptArray(o: Object, key: string): (r: Option<seq<Json>>)
    ensures r.Some? <==> Has(o, key) && o[key].JArr?
  {
    if key in o && o[key].JArr? then Some(o[key].items) else None
  }

  /** `JSONObject.getJSONArray(key)`; None where it throws. */
  function GetArray(o: Object, key: string): (r: Option<seq<Json>>)
    ensures r.Some? <==> Has(o, key) && o[key].JArr?
  {
    OptArray(o, key)
  }

  /** `JSONObject.getJSONObject(key)`; None where it throws. */
  function GetObject(o: Object, key: string): (r: Option<Object>)
    ensures r.Some? <==> Has(o, key) && o[key].JObj?
  {
    if key in o && o[key].JObj? then Some(o[key].fields) else None
  }

  /** `JSONObject.getString(key)`; None where it throws (missing, or not a
      string). */
  function GetString(o: Object, key: string): (r: Option<string>)
    ensures r.Some? <==> Has(o, key) && o[key].JStr?
  {
    if key in o && o[key].JStr? then Some(o[key].s) else None
  }

  /** `JSONArray.getJSONObject(i)`, applied to an element; None where it throws. */
  function AsObject(v: Json): (r: Option<Object>)
    ensures r.Some? <==> v.JObj?
  {
    if v.JObj? then Some(v.fields) else None
  }
}
