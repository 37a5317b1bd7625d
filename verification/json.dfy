/** Parsed JSON request bodies and the handful of Joi schema rules the
    services' validators use. A `char` is a Unicode scalar value, while Joi's
    `min` and `max` measure JavaScript's `length`, which counts UTF-16 code
    units; `Utf16Length` converts between the two. */
module Json {

  datatype Value =
    | Null
    | Bool(b: bool)
    | Number(n: int)
    | Str(s: string)
    | Array(items: seq<Value>)
    | Object(fields: map<string, Value>)

  /** UTF-16 code units of one scalar value: a character outside the Basic
      Multilingual Plane is written as a surrogate pair. */
  function CodeUnits(c: char): nat
  {
    if c as int < 0x10000 then 1 else 2
  }

  /** JavaScript's `s.length`: the number of UTF-16 code units of `s`. */
  function Utf16Length(s: string): (n: nat)
    ensures |s| <= n <= 2 * |s|
  {
    if |s| == 0 then 0 else CodeUnits(s[0]) + Utf16Length(s[1..])
  }

  /** A string within the Basic Multilingual Plane has one unit per character. */
  lemma {:induction false} BmpLength(s: string)
    requires forall i :: 0 <= i < |s| ==> s[i] as int < 0x10000
    ensures Utf16Length(s) == |s|
  {
    if |s| > 0 {
      assert forall i :: 0 <= i < |s[1..]| ==> s[1..][i] == s[i + 1];
      BmpLength(s[1..]);
    }
  }

  /** A string of characters outside the Basic Multilingual Plane (emoji,
      say) has two units per character. */
  lemma {:induction false} AstralLength(s: string)
    requires forall i :: 0 <= i < |s| ==> s[i] as int >= 0x10000
    ensures Utf16Length(s) == 2 * |s|
  {
    if |s| > 0 {
      assert forall i :: 0 <= i < |s[1..]| ==> s[1..][i] == s[i + 1];
      AstralLength(s[1..]);
    }
  }

  /** A request body as the JSON body parser hands it to a handler. */
  type Body = map<string, Value>

  /** Joi's `object({...})` with no `unknown()`: no key outside the schema. */
  predicate OnlyKeys(body: Body, allowed: set<string>)
  {
    body.Keys <= allowed
  }

  /** Joi's `string().min(lo).max(hi).required()` for `key`. */
  predicate RequiredStringWithin(body: Body, key: string, lo: nat, hi: nat)
  {
    key in body && body[key].Str? && lo <= Utf16Length(body[key].s) <= hi
  }

  /** Joi's `string().min(lo).required()` for `key`: no upper bound. */
  predicate RequiredStringAtLeast(body: Body, key: string, lo: nat)
  {
    key in body && body[key].Str? && lo <= Utf16Length(body[key].s)
  }
}
