/**
 * The `successResponses` helper of lib/codegen.ts: copies an OpenAPI 3
 * Responses Object without the entries whose key is an error status
 * (`4xx`, `5xx`, `4XX`-style ranges) or `default`.
 */
module Responses {
  import opened Wrappers
  import opened JsValues

  /** `[\dX]`: an ASCII digit or the literal range letter `X`. */
  predicate IsDigitOrX(c: char) {
    '0' <= c <= '9' || c == 'X'
  }

  /** `/^([45][\dX]{2}|default)$/.test(key)`. */
  predicate IsErrorStatus(key: string) {
    || key == "default"
    || (|key| == 3 && (key[0] == '4' || key[0] == '5') && IsDigitOrX(key[1]) && IsDigitOrX(key[2]))
  }

  /** The responses that are kept, in their original order. */
  function KeepSuccess(members: seq<(string, Value)>): (r: seq<(string, Value)>)
    ensures forall p :: p in r <==> p in members && !IsErrorStatus(p.0)
  {
    if members == [] then []
    else
      var last := members[|members| - 1];
      var front := members[..|members| - 1];
      assert members == front + [last];
      KeepSuccess(front) + (if IsErrorStatus(last.0) then [] else [last])
  }

  /** Success statuses and their ranges are kept in order; client and server errors and `default` are dropped. */
  lemma KeepSuccessExample(r1: Value, r2: Value, r3: Value, r4: Value, r5: Value)
    ensures KeepSuccess([("200", r1), ("404", r2), ("default", r3), ("2XX", r4), ("5XX", r5)]) == [("200", r1), ("2XX", r4)]
  {
    var m := [("200", r1), ("404", r2), ("default", r3), ("2XX", r4), ("5XX", r5)];
    assert IsErrorStatus("404") && IsErrorStatus("default") && IsErrorStatus("5XX");
    assert !IsErrorStatus("200") && !IsErrorStatus("2XX");
    assert m[..1][..0] == [] && m[..2][..1] == m[..1] && m[..3][..2] == m[..2] && m[..4][..3] == m[..3] && m[..4] == m[..|m| - 1];
    assert m[..3][2] == ("default", r3) && m[..2][1] == ("404", r2);
    assert KeepSuccess(m[..1]) == [("200", r1)];
    assert KeepSuccess(m[..2]) == [("200", r1)];
    assert KeepSuccess(m[..3]) == [("200", r1)];
    assert KeepSuccess(m[..4]) == [("200", r1), ("2XX", r4)];
  }

  /** `keys.filter(_ => !_.match(...))`. */
  function KeepSuccessKeys(keys: seq<string>): seq<string> {
    if keys == [] then []
    else
      var last := keys[|keys| - 1];
      KeepSuccessKeys(keys[..|keys| - 1]) + (if IsErrorStatus(last) then [] else [last])
  }

  /** `out[key] = v`: overwrites the member named `key` in place, or appends a new one. */
  function Put(members: seq<(string, Value)>, key: string, v: Value): seq<(string, Value)> {
    if members == [] then [(key, v)]
    else if members[0].0 == key then [(key, v)] + members[1..]
    else [members[0]] + Put(members[1..], key, v)
  }

  /** Assigning a key the object does not have appends it at the end. */
  lemma {:induction false} PutNewKey(members: seq<(string, Value)>, key: string, v: Value)
    requires forall i :: 0 <= i < |members| ==> members[i].0 != key
    ensures Put(members, key, v) == members + [(key, v)]
  {
    if members != [] {
      PutNewKey(members[1..], key, v);
      assert [members[0]] + (members[1..] + [(key, v)]) == members + [(key, v)];
    }
  }

  /** `a` is `b` with some elements left out, the rest in the same order. */
  predicate IsSubsequence<T(==)>(a: seq<T>, b: seq<T>)
    decreases |b|
  {
    || a == []
    || (b != [] &&
        (|| (a[|a| - 1] == b[|b| - 1] && IsSubsequence(a[..|a| - 1], b[..|b| - 1]))
         || IsSubsequence(a, b[..|b| - 1])))
  }

  /** The kept responses keep their relative order. */
  lemma {:induction false} KeepSuccessSubsequence(members: seq<(string, Value)>)
    ensures IsSubsequence(KeepSuccess(members), members)
  {
    if members != [] {
      var front := members[..|members| - 1];
      var last := members[|members| - 1];
      KeepSuccessSubsequence(front);
      var kf := KeepSuccess(front);
      if IsErrorStatus(last.0) {
        assert KeepSuccess(members) == kf + [];
        assert kf + [] == kf;
        if kf != [] {
          SubsequenceDropLast(kf, members);
        }
      } else {
        var r := kf + [last];
        assert KeepSuccess(members) == r;
        assert r[..|r| - 1] == kf;
      }
    }
  }

  lemma SubsequenceDropLast<T>(a: seq<T>, b: seq<T>)
    requires b != []
    requires IsSubsequence(a, b[..|b| - 1])
    ensures IsSubsequence(a, b)
  {
  }

  /** Filtering keeps the keys of an object distinct. */
  lemma {:induction false} KeepSuccessDistinct(members: seq<(string, Value)>)
    requires DistinctKeys(members)
    ensures DistinctKeys(KeepSuccess(members))
  {
    if members != [] {
      var front := members[..|members| - 1];
      var last := members[|members| - 1];
      assert DistinctKeys(front);
      KeepSuccessDistinct(front);
      var kf := KeepSuccess(front);
      forall i | 0 <= i < |kf|
        ensures kf[i].0 != last.0
      {
        assert kf[i] in front;
        var j :| 0 <= j < |front| && front[j] == kf[i];
        assert members[j] == kf[i];
      }
    }
  }

  /** Filtering the keys is filtering the members and taking their keys. */
  lemma {:induction false} KeepSuccessKeysOf(members: seq<(string, Value)>)
    ensures KeepSuccessKeys(Keys(members)) == Keys(KeepSuccess(members))
  {
    if members != [] {
      var front := members[..|members| - 1];
      assert Keys(members)[..|members| - 1] == Keys(front);
      KeepSuccessKeysOf(front);
    }
  }

  /** Every kept member is what the input object holds under its key. */
  lemma LookupKept(members: seq<(string, Value)>, i: nat)
    requires DistinctKeys(members)
    requires i < |KeepSuccess(members)|
    ensures Lookup(members, KeepSuccess(members)[i].0) == Some(KeepSuccess(members)[i].1)
  {
    var p := KeepSuccess(members)[i];
    assert p in members;
    var j :| 0 <= j < |members| && members[j] == p;
    LookupDistinct(members, j);
  }

  /**
   * A key of the result holds the same value as in the input exactly when it
   * is not an error status; error statuses are absent from the result.
   */
  lemma KeepSuccessLookup(members: seq<(string, Value)>, key: string)
    requires DistinctKeys(members)
    ensures Lookup(KeepSuccess(members), key) == if IsErrorStatus(key) then None else Lookup(members, key)
  {
    var r := KeepSuccess(members);
    KeepSuccessDistinct(members);
    match Lookup(members, key)
    case None =>
    case Some(v) =>
      assert (key, v) in members;
      if !IsErrorStatus(key) {
        assert (key, v) in r;
        var i :| 0 <= i < |r| && r[i] == (key, v);
        LookupDistinct(r, i);
      }
  }

  /** One step of the copy loop: assigning the next member's key extends the copy by that member. */
  lemma CopyStep(kept: seq<(string, Value)>, i: nat)
    requires DistinctKeys(kept)
    requires i < |kept|
    ensures Put(kept[..i], kept[i].0, kept[i].1) == kept[..i + 1]
  {
    var prefix := kept[..i];
    forall j | 0 <= j < |prefix|
      ensures prefix[j].0 != kept[i].0
    {
      assert prefix[j] == kept[j];
    }
    PutNewKey(prefix, kept[i].0, kept[i].1);
    assert kept[..i + 1] == prefix + [kept[i]];
  }

  /**
   * The helper itself: filter the keys of `value`, then copy each kept key's
   * value into a fresh object `out`. The input is never written.
   */
  method SuccessResponses(value: seq<(string, Value)>) returns (out: seq<(string, Value)>)
    requires DistinctKeys(value)
    ensures out == KeepSuccess(value)
    ensures forall key :: Lookup(out, key) == if IsErrorStatus(key) then None else Lookup(value, key)
  {
    ghost var kept := KeepSuccess(value);
    KeepSuccessDistinct(value);
    KeepSuccessKeysOf(value);
    var keys := KeepSuccessKeys(Keys(value));
    out := [];
    var i := 0;
    while i < |keys|
      invariant |keys| == |kept|
      invariant 0 <= i <= |keys|
      invariant out == kept[..i]
    {
      var key := keys[i];
      LookupKept(value, i);
      CopyStep(kept, i);
      out := Put(out, key, Lookup(value, key).value);
      i := i + 1;
    }
    assert kept[..|kept|] == kept;
    forall key
      ensures Lookup(out, key) == if IsErrorStatus(key) then None else Lookup(value, key)
    {
      KeepSuccessLookup(value, key);
    }
  }
}
