/**
 * The `deref` helper of lib/codegen.ts: follows a local `$ref` pointer (or a
 * bare pointer string) from the document root by successive key lookups.
 */
module Deref {
  import opened Wrappers
  import opened JsValues
  import opened JsStrings
  import opened Pointers

  /**
   * The inner `recursor`: look up the first segment, and descend with the
   * rest only while segments remain and the value reached is truthy;
   * otherwise return the value reached, possibly undefined.
   */
  function Walk(path: seq<string>, obj: Value): (r: Option<Value>)
    requires |path| >= 1
    ensures exists j :: 1 <= j <= |path| && r == Resolve(path[..j], obj) && (j < |path| ==> !Truthy(r))
  {
    var value := Get(obj, path[0]);
    assert path[..1] == [path[0]];
    assert Resolve(path[..1], obj) == value;
    if |path| > 1 && Truthy(value) then
      var r := Walk(path[1..], value.value);
      var j :| 1 <= j <= |path| - 1 && r == Resolve(path[1..][..j], value.value) && (j < |path| - 1 ==> !Truthy(r));
      PrefixStep(path, obj, j + 1);
      r
    else value
  }

  /**
   * Plain evaluation of a path by successive lookups: undefined as soon as a
   * key is missing. This is the reference `Walk` is compared with.
   */
  function Resolve(path: seq<string>, v: Value): Option<Value> {
    if path == [] then Some(v)
    else
      match Get(v, path[0])
      case None => None
      case Some(w) => Resolve(path[1..], w)
  }

  /** Every proper prefix of `path` leads to a truthy value. */
  ghost predicate TruthyPrefixes(path: seq<string>, obj: Value, upTo: int)
    requires upTo <= |path|
  {
    forall j :: 1 <= j < upTo ==> Truthy(Resolve(path[..j], obj))
  }

  lemma PrefixStep(path: seq<string>, obj: Value, j: nat)
    requires 1 <= j <= |path|
    requires Get(obj, path[0]).Some?
    ensures Resolve(path[..j], obj) == Resolve(path[1..][..j - 1], Get(obj, path[0]).value)
  {
    assert path[..j][0] == path[0];
    assert path[..j][1..] == path[1..][..j - 1];
  }

  /** When every intermediate value is truthy, `recursor` returns the value at the end of the path. */
  lemma {:induction false} WalkFollowsTruthyPath(path: seq<string>, obj: Value)
    requires |path| >= 1
    requires TruthyPrefixes(path, obj, |path|)
    ensures Walk(path, obj) == Resolve(path, obj)
  {
    var value := Get(obj, path[0]);
    assert path[..1] == [path[0]];
    if |path| > 1 {
      assert Truthy(Resolve(path[..1], obj));
      assert Resolve([path[0]], obj) == value;
      forall j | 1 <= j < |path| - 1
        ensures Truthy(Resolve(path[1..][..j], value.value))
      {
        PrefixStep(path, obj, j + 1);
        assert Truthy(Resolve(path[..j + 1], obj));
      }
      WalkFollowsTruthyPath(path[1..], value.value);
      PrefixStep(path, obj, |path|);
      assert path[..|path|] == path;
      assert path[1..][..|path| - 1] == path[1..];
    } else {
      match value
      case None =>
      case Some(w) =>
        assert path[1..] == [];
    }
  }

  /**
   * `recursor` stops at the first intermediate value that is falsy and returns
   * it as it is: a missing key gives undefined, a null gives null.
   */
  lemma {:induction false} WalkStopsAtFalsy(path: seq<string>, obj: Value, j: nat)
    requires 1 <= j < |path|
    requires TruthyPrefixes(path, obj, j)
    requires !Truthy(Resolve(path[..j], obj))
    ensures Walk(path, obj) == Resolve(path[..j], obj)
  {
    var value := Get(obj, path[0]);
    assert path[..1] == [path[0]];
    assert Resolve([path[0]], obj) == value;
    if j > 1 {
      assert Truthy(Resolve(path[..1], obj));
      forall k | 1 <= k < j - 1
        ensures Truthy(Resolve(path[1..][..k], value.value))
      {
        PrefixStep(path, obj, k + 1);
        assert Truthy(Resolve(path[..k + 1], obj));
      }
      PrefixStep(path, obj, j);
      WalkStopsAtFalsy(path[1..], value.value, j - 1);
    }
  }

  /** A value that `deref` treats as a reference object: it has an own `$ref` property. */
  predicate HasRef(value: Option<Value>) {
    value.Some? && value.value.Obj? && Lookup(value.value.members, "$ref").Some?
  }

  /** A bare string that matches the pointer pattern. */
  predicate IsPointerString(value: Option<Value>) {
    value.Some? && value.value.Str? && MatchesPointer(value.value.s)
  }

  /** `recursor(ref, root)`: looking a key up on a null root throws. */
  function Follow(path: seq<string>, root: Value): Result<Option<Value>, JsError>
    requires |path| >= 1
  {
    if root.Null? then Err(TypeError) else Ok(Walk(path, root))
  }

  /**
   * The `deref` helper. A value with an own `$ref` is resolved through its
   * string (a `$ref` that is not a string throws, one that fails the pattern
   * gives undefined); a bare pointer string is resolved; anything else is
   * returned unchanged. Resolution is one hop: a target that is itself a
   * reference is returned as it is.
   */
  /** A `$ref` member whose value is not a string: calling `match` on it throws. */
  predicate NonStringRef(value: Option<Value>) {
    HasRef(value) && !Lookup(value.value.members, "$ref").value.Str?
  }

  /** The pointer `deref` follows, if any: a matching `$ref` string, or a matching bare string. */
  function PointerTarget(value: Option<Value>): (p: Option<string>)
    ensures p.Some? ==> MatchesPointer(p.value) && |PointerSegments(p.value)| >= 1
  {
    if HasRef(value) then
      var refString := Lookup(value.value.members, "$ref").value;
      if refString.Str? && MatchesPointer(refString.s) then
        MatchedPointerSegments(refString.s);
        Some(refString.s)
      else None
    else if IsPointerString(value) then
      MatchedPointerSegments(value.value.s);
      Some(value.value.s)
    else None
  }

  function Deref(value: Option<Value>, root: Value): (r: Result<Option<Value>, JsError>)
    ensures r.Err? <==> NonStringRef(value) || (root.Null? && PointerTarget(value).Some?)
    ensures r.Ok? && PointerTarget(value).Some? ==>
      r.value == Walk(PointerSegments(PointerTarget(value).value), root)
    ensures r.Ok? && PointerTarget(value).None? ==> r.value == if HasRef(value) then None else value
  {
    if HasRef(value) then
      var refString := Lookup(value.value.members, "$ref").value;
      if !refString.Str? then Err(TypeError)
      else if MatchesPointer(refString.s) then
        MatchedPointerSegments(refString.s);
        Follow(PointerSegments(refString.s), root)
      else Ok(None)
    else if IsPointerString(value) then
      MatchedPointerSegments(value.value.s);
      Follow(PointerSegments(value.value.s), root)
    else Ok(value)
  }

  /** On anything that is not a reference, `deref` is the identity. */
  lemma DerefIdentity(value: Option<Value>, root: Value)
    requires !HasRef(value) && !IsPointerString(value)
    ensures Deref(value, root) == Ok(value)
  {
  }

  /**
   * Both reference forms of the pointer to `path` resolve to what `recursor`
   * reaches from a non-null root; a null root throws.
   */
  lemma DerefPointer(path: seq<string>, root: Value, extra: seq<(string, Value)>)
    requires |path| >= 1
    requires forall i :: 0 <= i < |path| ==> IsWord(path[i])
    ensures var p := PointerOf(path);
      var expected := if root.Null? then Err(TypeError) else Ok(Walk(path, root));
      Deref(Some(Str(p)), root) == expected &&
      Deref(Some(Obj([("$ref", Str(p))] + extra)), root) == expected
  {
    PointerRoundTrip(path);
  }

  /**
   * A pointer along which every intermediate value is truthy resolves to the
   * value at the end of its path.
   */
  lemma DerefResolvesPath(path: seq<string>, root: Value)
    requires |path| >= 1
    requires forall i :: 0 <= i < |path| ==> IsWord(path[i])
    requires !root.Null?
    requires TruthyPrefixes(path, root, |path|)
    ensures Deref(Some(Str(PointerOf(path))), root) == Ok(Resolve(path, root))
  {
    DerefPointer(path, root, []);
    WalkFollowsTruthyPath(path, root);
  }

  /** A `$ref` whose string fails the pattern resolves to undefined, without error. */
  lemma DerefMalformedRef(value: Option<Value>, root: Value)
    requires HasRef(value)
    requires Lookup(value.value.members, "$ref").value.Str?
    requires !MatchesPointer(Lookup(value.value.members, "$ref").value.s)
    ensures Deref(value, root) == Ok(None)
  {
  }
}
