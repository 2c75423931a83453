/** Shared vocabulary of the route handlers and components: optional values
    (a JavaScript value that may be `null`/`undefined`) and JSON responses. */
module Common {

  datatype Option<+T> = None | Some(value: T)

  /** The HTTP verbs the route handlers distinguish. */
  datatype HttpMethod = Get | Post | Put | Delete

  /** A `NextResponse.json(...)` value: a body with status 200, or an
      `{ error: message }` body with a non-200 status. */
  datatype Response<+T> = Ok(body: T) | Fail(status: nat, error: string)
  {
    /** The HTTP status code the response carries. */
    function Status(): nat {
      match this
      case Ok(_) => 200
      case Fail(s, _) => s
    }
  }

  /** A character outside the Basic Multilingual Plane, which a JavaScript
      string holds as two UTF-16 code units (a surrogate pair). */
  predicate IsAstral(c: char) {
    c as int >= 0x10000
  }

  /** The UTF-16 code units JavaScript stores for one character. */
  function CodeUnits(c: char): (n: nat)
    ensures n == 1 || n == 2
    ensures n == 2 <==> IsAstral(c)
  {
    if IsAstral(c) then 2 else 1
  }

  /** A string with no character outside the Basic Multilingual Plane. */
  predicate IsBmp(s: string) {
    forall i :: 0 <= i < |s| ==> !IsAstral(s[i])
  }

  /** The number of characters outside the Basic Multilingual Plane among
      the first `k` characters of `s`. */
  function AstralsBelow(s: string, k: nat): (n: nat)
    requires k <= |s|
    ensures n <= k
    ensures (forall i :: 0 <= i < k ==> !IsAstral(s[i])) ==> n == 0
  {
    if k == 0 then 0 else AstralsBelow(s, k - 1) + (if IsAstral(s[k - 1]) then 1 else 0)
  }

  /** JavaScript's `s.length`: the number of UTF-16 code units, one per
      character plus one more per character outside the Basic Multilingual
      Plane. */
  function Utf16Length(s: string): (n: nat)
    ensures |s| <= n <= 2 * |s|
    ensures IsBmp(s) ==> n == |s|
  {
    |s| + AstralsBelow(s, |s|)
  }

  /** Two strings whose characters agree on being astral count alike. */
  lemma AstralsBelowAlike(s: string, t: string, k: nat)
    requires k <= |s| && k <= |t|
    requires forall i :: 0 <= i < k ==> IsAstral(s[i]) == IsAstral(t[i])
    ensures AstralsBelow(s, k) == AstralsBelow(t, k)
  {
  }

  /** Prepending one character adds its code units. */
  lemma {:induction false} AstralsBelowCons(c: char, s: string, k: nat)
    requires k <= |s|
    ensures AstralsBelow([c] + s, k + 1) == AstralsBelow(s, k) + (if IsAstral(c) then 1 else 0)
  {
    if k > 0 {
      AstralsBelowCons(c, s, k - 1);
      assert ([c] + s)[k] == s[k - 1];
    }
  }

  /** `([c] + s).length` is the units of `c` plus `s.length`. */
  lemma Utf16LengthCons(c: char, s: string)
    ensures Utf16Length([c] + s) == CodeUnits(c) + Utf16Length(s)
  {
    AstralsBelowCons(c, s, |s|);
  }

  /** JavaScript truthiness of an optional string field: present and not "". */
  predicate Truthy(s: Option<string>): (b: bool)
    // `undefined`, `null` and the empty string are the falsy strings
    ensures s.None? ==> !b
    ensures s.Some? ==> (b <==> |s.value| > 0)
  {
    s.Some? && s.value != ""
  }

  /** The `x || fallback` idiom on an optional string. */
  function OrElse(s: Option<string>, fallback: string): (r: string)
    ensures Truthy(s) ==> r == s.value
    ensures !Truthy(s) ==> r == fallback
  {
    if Truthy(s) then s.value else fallback
  }
}
