/**
 * The JavaScript values that reach the bundler: what `JSON.parse` yields for a
 * manifest, plus `undefined` and functions, which a caller of `loadConfig`
 * may pass in an object.  Numbers are integers (see README, "Left out").
 */
module JsValue {
  import opened Wrappers

  datatype Value =
    | Undef
    | Null
    | Bool(b: bool)
    | Num(n: int)
    | Str(s: string)
    | Arr(items: seq<Value>)
    | Obj(fields: seq<(string, Value)>)
    | Func

  /** An exception object: its `name` and `message` properties. */
  datatype JsError = JsError(name: string, message: string)

  /** The `typeof` operator. */
  function Typeof(v: Value): string {
    match v
    case Undef => "undefined"
    case Null => "object"
    case Bool(_) => "boolean"
    case Num(_) => "number"
    case Str(_) => "string"
    case Arr(_) => "object"
    case Obj(_) => "object"
    case Func => "function"
  }

  /** Whether a value counts as true in a condition. */
  predicate Truthy(v: Value) {
    match v
    case Undef => false
    case Null => false
    case Bool(b) => b
    case Num(n) => n != 0
    case Str(s) => s != ""
    case _ => true
  }

  // ---------------------------------------------------------------- decimal

  function DigitChar(d: nat): (c: char)
    requires d < 10
    ensures '0' <= c <= '9'
  {
    "0123456789"[d]
  }

  predicate IsDigit(c: char) {
    '0' <= c <= '9'
  }

  function DigitValue(c: char): nat
    requires IsDigit(c)
  {
    (c as int) - ('0' as int)
  }

  /** `String(n)` for a non-negative integer. */
  function NatToString(n: nat): (s: string)
    ensures |s| >= 1
    ensures forall i :: 0 <= i < |s| ==> IsDigit(s[i])
    decreases n
  {
    if n < 10 then [DigitChar(n)] else NatToString(n / 10) + [DigitChar(n % 10)]
  }

  /** Reads a string of decimal digits back as a number. */
  function ParseNat(s: string): nat
    requires forall i :: 0 <= i < |s| ==> IsDigit(s[i])
  {
    if s == [] then 0 else ParseNat(s[..|s| - 1]) * 10 + DigitValue(s[|s| - 1])
  }

  /** `String(n)` is readable back as `n`, and has no leading zero. */
  lemma {:induction false} NatToStringRoundTrip(n: nat)
    ensures ParseNat(NatToString(n)) == n
    ensures NatToString(n)[0] == '0' ==> n == 0
    decreases n
  {
    var s := NatToString(n);
    if n >= 10 {
      NatToStringRoundTrip(n / 10);
      assert s[..|s| - 1] == NatToString(n / 10);
      assert DigitValue(s[|s| - 1]) == n % 10;
    }
  }

  lemma NatToStringInjective(m: nat, n: nat)
    requires NatToString(m) == NatToString(n)
    ensures m == n
  {
    NatToStringRoundTrip(m);
    NatToStringRoundTrip(n);
  }

  /** `String(n)` for an integer. */
  function IntToString(n: int): string {
    if n < 0 then "-" + NatToString(-n) else NatToString(n)
  }

  /** `xs.join(sep)` for an array of strings. */
  function ArrayJoin(xs: seq<string>, sep: string): string
    decreases |xs|
  {
    if xs == [] then ""
    else if |xs| == 1 then xs[0]
    else ArrayJoin(xs[..|xs| - 1], sep) + sep + xs[|xs| - 1]
  }

  // ---------------------------------------------------------------- for...in

  /**
   * The (key, value) pairs that `for (k in v) if (v.hasOwnProperty(k))` visits:
   * the entries of an object, the indices of an array or of a string (a string
   * index yields a one-character string), and nothing for the other values.
   */
  function ForIn(v: Value): (r: seq<(string, Value)>)
    ensures v.Obj? ==> r == v.fields
    ensures !(v.Obj? || v.Arr? || v.Str?) ==> r == []
  {
    match v
    case Obj(f) => f
    case Arr(items) => seq(|items|, i requires 0 <= i < |items| => (NatToString(i), items[i]))
    case Str(s) => seq(|s|, i requires 0 <= i < |s| => (NatToString(i), Str([s[i]])))
    case _ => []
  }

  /**
   * An array or a string is visited once per index, in order, with the
   * index's decimal string as the key, so no key is visited twice.
   */
  lemma ForInIndices(v: Value)
    requires v.Arr? || v.Str?
    ensures v.Arr? ==> |ForIn(v)| == |v.items| && forall i :: 0 <= i < |v.items| ==> ForIn(v)[i].1 == v.items[i]
    ensures v.Str? ==> |ForIn(v)| == |v.s| && forall i :: 0 <= i < |v.s| ==> ForIn(v)[i].1 == Str([v.s[i]])
    ensures forall i, j :: 0 <= i < j < |ForIn(v)| ==> ForIn(v)[i].0 != ForIn(v)[j].0
  {
    var r := ForIn(v);
    forall i, j | 0 <= i < j < |r|
      ensures r[i].0 != r[j].0
    {
      assert r[i].0 == NatToString(i) && r[j].0 == NatToString(j);
      if r[i].0 == r[j].0 {
        NatToStringInjective(i, j);
      }
    }
  }

  // ---------------------------------------------------------- JSON.stringify

  function HexDigit(d: nat): char
    requires d < 16
  {
    "0123456789abcdef"[d]
  }

  /** How `JSON.stringify` writes one character inside a string literal. */
  function EscapeChar(c: char): string {
    if c == '"' then "\\\""
    else if c == '\\' then "\\\\"
    else if c == '\U{8}' then "\\b"
    else if c == '\t' then "\\t"
    else if c == '\n' then "\\n"
    else if c == '\U{C}' then "\\f"
    else if c == '\r' then "\\r"
    else if (c as int) < 0x20 then "\\u00" + [HexDigit((c as int) / 16), HexDigit((c as int) % 16)]
    else [c]
  }

  function Escape(s: string): string {
    if s == [] then "" else EscapeChar(s[0]) + Escape(s[1..])
  }

  /** A JSON string literal, as `JSON.stringify` writes it. */
  function Quote(s: string): string {
    "\"" + Escape(s) + "\""
  }

  /** Values that `JSON.stringify` leaves out of an object and writes as `null` in an array. */
  predicate Unserializable(v: Value) {
    v.Undef? || v.Func?
  }

  /**
   * `JSON.stringify(v)` for a value that is neither `undefined` nor a
   * function (for those two the result is `undefined`, which only an array
   * element or an object member can hold; see SerializeItems, SerializeFields).
   */
  function Serialize(v: Value): string
    decreases v, 1
  {
    match v
    case Undef => "null"
    case Func => "null"
    case Null => "null"
    case Bool(b) => if b then "true" else "false"
    case Num(n) => IntToString(n)
    case Str(s) => Quote(s)
    case Arr(items) => "[" + SerializeItems(items) + "]"
    case Obj(fields) => "{" + SerializeFields(fields, true) + "}"
  }

  /** Array elements, comma-separated; `undefined` and functions become `null`. */
  function SerializeItems(items: seq<Value>): string
    decreases items, 0
  {
    if items == [] then ""
    else if |items| == 1 then Serialize(items[0])
    else Serialize(items[0]) + "," + SerializeItems(items[1..])
  }

  /**
   * Object members `"key":value`, comma-separated, leaving out members whose
   * value is `undefined` or a function; `first` says no member has been
   * written yet, so no comma is due.
   */
  function SerializeFields(fields: seq<(string, Value)>, first: bool): string
    decreases fields, 0
  {
    if fields == [] then ""
    else if Unserializable(fields[0].1) then SerializeFields(fields[1..], first)
    else
      assert fields[0] in fields && fields[0].1 < fields[0];
      (if first then "" else ",") + Quote(fields[0].0) + ":" + Serialize(fields[0].1)
      + SerializeFields(fields[1..], false)
  }
}
