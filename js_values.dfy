/**
 * The dynamically typed document tree the template helpers receive (a parsed
 * OpenAPI 3 description), and the JavaScript built-ins the helpers lean on:
 * truthiness, property access, `Array.prototype.indexOf`/`includes`,
 * `String(...)` and `Array.prototype.join`.
 */
module JsValues {
  import opened Wrappers

  /** A node of the document: what a JSON or YAML loader produces. */
  datatype Value =
    | Null
    | Bool(b: bool)
    | Num(n: int)
    | Str(s: string)
    | Arr(items: seq<Value>)
    | Obj(members: seq<(string, Value)>)

  /** The only exception the modelled helpers can raise. */
  datatype JsError = TypeError

  /** `!!v`: undefined, null, false, 0 and "" are falsy; arrays and objects are truthy even when empty. */
  predicate Truthy(v: Option<Value>) {
    match v
    case None => false
    case Some(Null) => false
    case Some(Bool(b)) => b
    case Some(Num(n)) => n != 0
    case Some(Str(s)) => s != ""
    case Some(Arr(_)) => true
    case Some(Obj(_)) => true
  }

  /** `Object.keys` of an object: its own keys in order. */
  function Keys(members: seq<(string, Value)>): (keys: seq<string>)
    ensures |keys| == |members|
    ensures forall i :: 0 <= i < |members| ==> keys[i] == members[i].0
  {
    seq(|members|, i requires 0 <= i < |members| => members[i].0)
  }

  /** A JavaScript object never holds two own properties under one key. */
  predicate DistinctKeys(members: seq<(string, Value)>) {
    forall i, j :: 0 <= i < j < |members| ==> members[i].0 != members[j].0
  }

  /** `obj[key]` on an object: the value stored under `key`, or undefined. */
  function Lookup(members: seq<(string, Value)>, key: string): (r: Option<Value>)
    ensures r.None? <==> forall i :: 0 <= i < |members| ==> members[i].0 != key
    ensures r.Some? ==> exists i :: 0 <= i < |members| && members[i] == (key, r.value)
  {
    if members == [] then None
    else if members[0].0 == key then Some(members[0].1)
    else Lookup(members[1..], key)
  }

  /** In an object with distinct keys, looking up a member's key yields that member's value. */
  lemma {:induction false} LookupDistinct(members: seq<(string, Value)>, i: nat)
    requires DistinctKeys(members)
    requires i < |members|
    ensures Lookup(members, members[i].0) == Some(members[i].1)
  {
    if i > 0 {
      assert members[0].0 != members[i].0;
      assert DistinctKeys(members[1..]) by {
        forall a, b | 0 <= a < b < |members[1..]|
          ensures members[1..][a].0 != members[1..][b].0
        {
          assert members[1..][a] == members[a + 1] && members[1..][b] == members[b + 1];
        }
      }
      LookupDistinct(members[1..], i - 1);
    }
  }

  /**
   * Property access `v[key]`, restricted to objects: every other kind of value
   * has no properties in this model.
   */
  function Get(v: Value, key: string): (r: Option<Value>)
    ensures r.Some? ==> v.Obj? && (key, r.value) in v.members
  {
    if v.Obj? then Lookup(v.members, key) else None
  }

  /**
   * `a === b`, type by type: undefined and null equal only themselves,
   * booleans, numbers and strings compare by value, and arrays and objects
   * compare by contents (the model has no object identity).
   */
  predicate StrictEquals(a: Option<Value>, b: Option<Value>) {
    match (a, b)
    case (None, None) => true
    case (Some(Null), Some(Null)) => true
    case (Some(Bool(x)), Some(Bool(y))) => x == y
    case (Some(Num(x)), Some(Num(y))) => x == y
    case (Some(Str(x)), Some(Str(y))) => x == y
    case (Some(Arr(x)), Some(Arr(y))) => x == y
    case (Some(Obj(x)), Some(Obj(y))) => x == y
    case _ => false
  }

  /** `xs.indexOf(x)`: the first position holding `x`, or -1. */
  function IndexOf<T(==)>(xs: seq<T>, x: T): (r: int)
    ensures -1 <= r < |xs|
    ensures r == -1 <==> x !in xs
    ensures 0 <= r ==> xs[r] == x && x !in xs[..r]
  {
    if xs == [] then -1
    else if xs[0] == x then 0
    else
      var k := IndexOf(xs[1..], x);
      assert k >= 0 ==> xs[..k + 1] == [xs[0]] + xs[1..][..k];
      if k < 0 then -1 else k + 1
  }

  predicate StartsWith(s: string, prefix: string) {
    |prefix| <= |s| && s[..|prefix|] == prefix
  }

  /** `s.includes(needle)` on a string: a substring search. */
  function StringIncludes(s: string, needle: string): bool
    decreases |s|
  {
    StartsWith(s, needle) || (s != [] && StringIncludes(s[1..], needle))
  }

  /** `needle` occurs in `s` starting at position `i`. */
  predicate OccursAt(s: string, needle: string, i: int) {
    0 <= i <= |s| - |needle| && s[i..i + |needle|] == needle
  }

  /** The search succeeds exactly when `needle` occurs at some position of `s`. */
  lemma {:induction false} StringIncludesSpec(s: string, needle: string)
    ensures StringIncludes(s, needle) <==> exists i :: OccursAt(s, needle, i)
    decreases |s|
  {
    if StartsWith(s, needle) {
      assert OccursAt(s, needle, 0);
    }
    if s != [] {
      StringIncludesSpec(s[1..], needle);
      if StringIncludes(s[1..], needle) {
        var i :| OccursAt(s[1..], needle, i);
        assert s[1..][i..i + |needle|] == s[i + 1..i + 1 + |needle|];
        assert OccursAt(s, needle, i + 1);
      }
    }
    if exists i :: OccursAt(s, needle, i) {
      var i :| OccursAt(s, needle, i);
      if i > 0 {
        assert s[1..][i - 1..i - 1 + |needle|] == s[i..i + |needle|];
        assert OccursAt(s[1..], needle, i - 1);
      }
    }
  }

  function DigitChar(d: nat): char
    requires d < 10
  {
    "0123456789"[d]
  }

  /** Decimal digits of a natural number, most significant first. */
  function NatToString(n: nat): string
  {
    if n < 10 then [DigitChar(n)] else NatToString(n / 10) + [DigitChar(n % 10)]
  }

  /** `String(n)` for an integer. */
  function IntToString(n: int): string {
    if n < 0 then "-" + NatToString(-n) else NatToString(n)
  }

  /** `String(v)` for a defined value. */
  function ToString(v: Value): string {
    match v
    case Null => "null"
    case Bool(b) => if b then "true" else "false"
    case Num(n) => IntToString(n)
    case Str(s) => s
    case Arr(items) => JoinItems(items, ",")
    case Obj(_) => "[object Object]"
  }

  /** `items.join(sep)`: null elements contribute the empty string. */
  function JoinItems(items: seq<Value>, sep: string): string
  {
    if items == [] then ""
    else
      var head := if items[0].Null? then "" else ToString(items[0]);
      if |items| == 1 then head else head + sep + JoinItems(items[1..], sep)
  }

  /** `String(v)`, where undefined prints as "undefined". */
  function JsString(v: Option<Value>): string {
    match v
    case None => "undefined"
    case Some(w) => ToString(w)
  }

  /** What one element contributes to `Array.prototype.join`: undefined and null give "". */
  function JoinPiece(v: Option<Value>): string {
    match v
    case None => ""
    case Some(Null) => ""
    case Some(w) => ToString(w)
  }
}
