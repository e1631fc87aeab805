/**
 * The local pointers `deref` accepts: strings matching `^#(/\w+)+$`, a
 * restricted form of the JSON Pointer URI fragment of section 6 of RFC 6901
 * (no `~0`/`~1` escapes, every segment a non-empty run of word characters).
 */
module Pointers {
  import opened JsStrings

  /** `\w` in a JavaScript regular expression without the `u` flag: `[A-Za-z0-9_]`. */
  predicate IsWordChar(c: char) {
    'a' <= c <= 'z' || 'A' <= c <= 'Z' || '0' <= c <= '9' || c == '_'
  }

  predicate AllWordChars(w: string) {
    forall i :: 0 <= i < |w| ==> IsWordChar(w[i])
  }

  /** `\w+`. */
  predicate IsWord(w: string) {
    |w| > 0 && AllWordChars(w)
  }

  /** `t` is matched by `(/\w+)+`: a slash, a first word character, then the rest of the group. */
  predicate Groups(t: string)
    decreases |t|, 0
  {
    |t| >= 2 && t[0] == '/' && IsWordChar(t[1]) && RestOfGroup(t[2..])
  }

  /** What may follow the first word character of a group: more word characters, then the end or further groups. */
  predicate RestOfGroup(t: string)
    decreases |t|, 1
  {
    t == [] || (IsWordChar(t[0]) && RestOfGroup(t[1..])) || Groups(t)
  }

  /** `/^#(\/\w+)+$/.test(s)`. */
  predicate MatchesPointer(s: string) {
    |s| >= 1 && s[0] == '#' && Groups(s[1..])
  }

  /** The pointer `#/seg1/seg2/...` naming the path `segs`. */
  function PointerOf(segs: seq<string>): string {
    Join(["#"] + segs, '/')
  }

  /** `const [_, ...ref] = s.split('/')`: the pieces after the `#`. */
  function PointerSegments(s: string): seq<string> {
    Split(s, '/')[1..]
  }

  lemma WordHasNoSlash(w: string)
    requires AllWordChars(w)
    ensures '/' !in w
  {
  }

  /** After the rest of a group, the split yields a run of word characters and then whole words. */
  lemma {:induction false} RestOfGroupSplit(t: string)
    requires RestOfGroup(t)
    ensures var p := Split(t, '/'); AllWordChars(p[0]) && forall i :: 1 <= i < |p| ==> IsWord(p[i])
    decreases |t|, 1
  {
    if t == [] {
    } else if IsWordChar(t[0]) && RestOfGroup(t[1..]) {
      RestOfGroupSplit(t[1..]);
      var q := Split(t[1..], '/');
      assert t[0] != '/';
      assert Split(t, '/') == [[t[0]] + q[0]] + q[1..];
    } else {
      GroupsSplit(t);
    }
  }

  /** Text matched by `(/\w+)+` splits into an empty first piece followed by one or more words. */
  lemma {:induction false} GroupsSplit(t: string)
    requires Groups(t)
    ensures var p := Split(t, '/'); p[0] == "" && |p| >= 2 && forall i :: 1 <= i < |p| ==> IsWord(p[i])
    decreases |t|, 0
  {
    RestOfGroupSplit(t[2..]);
    var q := Split(t[2..], '/');
    assert t[1..][1..] == t[2..];
    assert Split(t[1..], '/') == [[t[1]] + q[0]] + q[1..];
    assert Split(t, '/') == [""] + Split(t[1..], '/');
  }

  /** Word characters followed by the end or by further groups complete a group. */
  lemma {:induction false} RestOfGroupOf(w: string, tail: string)
    requires AllWordChars(w)
    requires tail == [] || Groups(tail)
    ensures RestOfGroup(w + tail)
  {
    if w == [] {
      assert w + tail == tail;
    } else {
      assert (w + tail)[1..] == w[1..] + tail;
      RestOfGroupOf(w[1..], tail);
    }
  }

  /** A slash followed by the join of one or more words is matched by `(/\w+)+`. */
  lemma {:induction false} GroupsOfJoin(segs: seq<string>)
    requires |segs| >= 1
    requires forall i :: 0 <= i < |segs| ==> IsWord(segs[i])
    ensures Groups(['/'] + Join(segs, '/'))
  {
    var tail: string := if |segs| == 1 then [] else ['/'] + Join(segs[1..], '/');
    if |segs| > 1 {
      GroupsOfJoin(segs[1..]);
      assert Join(segs, '/') == segs[0] + tail;
    } else {
      assert Join(segs, '/') == segs[0] + tail;
    }
    var u := ['/'] + Join(segs, '/');
    assert u[2..] == segs[0][1..] + tail;
    RestOfGroupOf(segs[0][1..], tail);
  }

  /** Every non-empty path of words is written as a matching pointer, from which `split` recovers it. */
  lemma PointerRoundTrip(segs: seq<string>)
    requires |segs| >= 1
    requires forall i :: 0 <= i < |segs| ==> IsWord(segs[i])
    ensures MatchesPointer(PointerOf(segs))
    ensures PointerSegments(PointerOf(segs)) == segs
  {
    var all := ["#"] + segs;
    assert all[1..] == segs;
    var s := PointerOf(segs);
    assert s == "#" + ['/'] + Join(segs, '/');
    assert s[1..] == ['/'] + Join(segs, '/');
    GroupsOfJoin(segs);
    forall i | 0 <= i < |all|
      ensures '/' !in all[i]
    {
      if i > 0 {
        WordHasNoSlash(segs[i - 1]);
      }
    }
    SplitJoin(all, '/');
  }

  /** A string matching the pattern is the pointer of its segments, which are one or more words. */
  lemma MatchedPointerSegments(s: string)
    requires MatchesPointer(s)
    ensures |PointerSegments(s)| >= 1
    ensures forall i :: 0 <= i < |PointerSegments(s)| ==> IsWord(PointerSegments(s)[i])
    ensures PointerOf(PointerSegments(s)) == s
  {
    GroupsSplit(s[1..]);
    var q := Split(s[1..], '/');
    assert Split(s, '/') == [['#'] + q[0]] + q[1..];
    assert ['#'] + q[0] == "#";
    JoinSplit(s, '/');
  }
}
