/**
 * The JSON tree of the JSON library (Gson's JsonElement): null, booleans,
 * integral numbers, strings, arrays, and objects whose members keep their
 * insertion order. Only what the core calls on it is modelled: member
 * lookup, getAsString, getAsInt, getAsDouble, and writing a tree back as
 * compact JSON text.
 */
module JsonModel {
  import opened Wrappers
  import opened Text

  datatype Json =
    | JNull
    | JBool(b: bool)
    | JNum(n: int)
    | JStr(s: string)
    | JArr(items: seq<Json>)
    | JObj(members: seq<Member>)

  datatype Member = Member(key: string, value: Json)

  /** A JSON text parser (`JsonParser.parseString`); None stands for the syntax exception. */
  type Parser = string -> Option<Json>

  predicate IsPrimitive(j: Json)
  {
    j.JBool? || j.JNum? || j.JStr?
  }

  /** `JsonObject.get(key)`: the value under `key`, None when the key is absent. */
  function Get(members: seq<Member>, key: string): Option<Json>
  {
    if members == [] then None
    else if members[0].key == key then Some(members[0].value)
    else Get(members[1..], key)
  }

  lemma {:induction false} GetAppend(a: seq<Member>, b: seq<Member>, key: string)
    ensures Get(a + b, key) == if Get(a, key).Some? then Get(a, key) else Get(b, key)
  {
    if a != [] {
      assert (a + b)[1..] == a[1..] + b;
      GetAppend(a[1..], b, key);
    } else {
      assert a + b == b;
    }
  }

  /** A member written only when the field is not null, as the JSON library's serialiser does. */
  function WithMember(key: string, v: Option<Json>, rest: seq<Member>): seq<Member>
  {
    if v.Some? then [Member(key, v.value)] + rest else rest
  }

  lemma GetWithMember(key: string, v: Option<Json>, rest: seq<Member>, k: string)
    ensures Get(WithMember(key, v, rest), k) == if k == key && v.Some? then v else Get(rest, k)
  {
    if v.Some? {
      assert ([Member(key, v.value)] + rest)[1..] == rest;
    }
  }

  function StringValue(x: Option<string>): Option<Json>
  {
    if x.Some? then Some(JStr(x.value)) else None
  }

  /** `obj.has(key) && !obj.get(key).isJsonNull()`. */
  predicate Present(members: seq<Member>, key: string)
  {
    Get(members, key).Some? && Get(members, key).value != JNull
  }

  /**
   * `JsonElement.getAsString()`. None stands for the exception it throws on
   * null, on objects, and on arrays that do not hold exactly one element.
   */
  function AsString(j: Json): Option<string>
  {
    match j
    case JNull => None
    case JBool(b) => Some(if b then "true" else "false")
    case JNum(n) => Some(IntText(n))
    case JStr(s) => Some(s)
    case JArr(items) => if |items| == 1 then AsString(items[0]) else None
    case JObj(_) => None
  }

  /**
   * `JsonElement.getAsInt()`: a number is narrowed to 32 bits, any other
   * primitive goes through `Integer.parseInt` of its text, a one-element array
   * delegates to its element. None stands for the exception.
   */
  function AsInt(j: Json): Option<int32>
  {
    match j
    case JNum(n) => Some(WrapInt32(n))
    case JStr(s) => ParseInt(s)
    case JBool(_) => None
    case JArr(items) => if |items| == 1 then AsInt(items[0]) else None
    case _ => None
  }

  /**
   * `JsonElement.getAsDouble()` on the integral numbers of this model: a
   * number is itself, a string must be a signed decimal integer.
   */
  function AsCoordinate(j: Json): Option<int>
  {
    match j
    case JNum(n) => Some(n)
    case JStr(s) => ParseInteger(s)
    case JArr(items) => if |items| == 1 then AsCoordinate(items[0]) else None
    case _ => None
  }

  /**
   * The second try of the stop parser's integer reader, `Integer.parseInt(el.getAsString())`,
   * never succeeds where `el.getAsInt()` failed.
   */
  lemma {:induction false} ParseFallbackAddsNothing(j: Json)
    ensures AsInt(j).None? ==> AsString(j).None? || ParseInt(AsString(j).value).None?
  {
    match j {
      case JBool(b) =>
        var t := if b then "true" else "false";
        assert !IsDigit(t[0]);
        assert !AllDigits(t);
      case JArr(items) =>
        if |items| == 1 {
          ParseFallbackAddsNothing(items[0]);
        }
      case _ =>
    }
  }

  // ---------------------------------------------------------------------------
  // Writing JSON text (JsonWriter)

  function HexDigit(d: nat): char
    requires d < 16
  {
    if d < 10 then ('0' as int + d) as char else ('a' as int + d - 10) as char
  }

  /** `\u00XX` for a code below U+0100. */
  function LowEscape(code: nat): string
    requires code < 256
  {
    "\\u00" + [HexDigit(code / 16), HexDigit(code % 16)]
  }

  /**
   * How JsonWriter writes one char of a string: quote and backslash escaped,
   * the short escapes for tab, backspace, newline, carriage return and form
   * feed, `\u00XX` for the other control chars, U+2028 and U+2029
   * escaped, and in HTML-safe mode `<`, `>`, `&`, `=` and `'` written as `\u00XX` too.
   */
  function EscapeChar(c: char, htmlSafe: bool): string
  {
    var code := c as int;
    if code == 0x22 then "\\\""
    else if code == 0x5C then "\\\\"
    else if code == 0x09 then "\\t"
    else if code == 0x08 then "\\b"
    else if code == 0x0A then "\\n"
    else if code == 0x0D then "\\r"
    else if code == 0x0C then "\\f"
    else if code < 0x20 then LowEscape(code)
    else if code == 0x2028 then "\\u2028"
    else if code == 0x2029 then "\\u2029"
    else if htmlSafe && (code == 0x3C || code == 0x3E || code == 0x26 || code == 0x3D || code == 0x27) then LowEscape(code)
    else [c]
  }

  function EscapeAll(s: string, htmlSafe: bool): string
  {
    if s == [] then "" else EscapeChar(s[0], htmlSafe) + EscapeAll(s[1..], htmlSafe)
  }

  function Quote(s: string, htmlSafe: bool): string
  {
    "\"" + EscapeAll(s, htmlSafe) + "\""
  }

  /**
   * Compact JSON text of a tree: `JsonElement.toString()` (htmlSafe false)
   * and `Gson.toJson` (htmlSafe true).
   */
  function Render(j: Json, htmlSafe: bool): string
    decreases j
  {
    match j
    case JNull => "null"
    case JBool(b) => if b then "true" else "false"
    case JNum(n) => IntText(n)
    case JStr(s) => Quote(s, htmlSafe)
    case JArr(items) =>
      "[" + Join(seq(|items|, i requires 0 <= i < |items| => Render(items[i], htmlSafe)), ",") + "]"
    case JObj(ms) =>
      "{" + Join(seq(|ms|, i requires 0 <= i < |ms| =>
                       assert ms[i] in ms;
                       Quote(ms[i].key, htmlSafe) + ":" + Render(ms[i].value, htmlSafe)), ",") + "}"
  }
}
