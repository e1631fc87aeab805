/**
 * The small helpers registered by the `Codegen` constructor of
 * lib/codegen.ts: `concat`, `coalesce`, `eq?`, `in?`, `first`, `value` and
 * `schemaRefToTypeName`. A helper receives the template's arguments followed
 * by Handlebars' `options` object; the helpers that `pop()` it are modelled on
 * the remaining arguments.
 */
module LibHelpers {
  import opened Wrappers
  import opened JsValues
  import opened JsStrings
  import opened JsonString
  import opened Pointers

  // ---------------------------------------------------------------- concat

  /** The arguments as document values, when none is undefined. */
  function Defined(values: seq<Option<Value>>): (items: seq<Value>)
    requires forall i :: 0 <= i < |values| ==> values[i].Some?
    ensures |items| == |values|
    ensures forall i :: 0 <= i < |values| ==> Some(items[i]) == values[i]
  {
    seq(|values|, i requires 0 <= i < |values| => values[i].value)
  }

  /**
   * `concat`: `values.join('')` once the options are popped. Without
   * undefined arguments it is `Array.prototype.join` with the empty separator.
   */
  function Concat(values: seq<Option<Value>>): (r: string)
    ensures (forall i :: 0 <= i < |values| ==> values[i].Some?) ==> r == JoinItems(Defined(values), "")
  {
    if values == [] then ""
    else
      var rest := Concat(values[1..]);
      assert (forall i :: 0 <= i < |values| ==> values[i].Some?) ==> Defined(values)[1..] == Defined(values[1..]);
      assert |values| == 1 ==> rest == "";
      JoinPiece(values[0]) + rest
  }

  /** `concat` joins its arguments in order: splitting the argument list splits the output. */
  lemma {:induction false} ConcatAppend(a: seq<Option<Value>>, b: seq<Option<Value>>)
    ensures Concat(a + b) == Concat(a) + Concat(b)
  {
    if a != [] {
      assert (a + b)[0] == a[0];
      assert (a + b)[1..] == a[1..] + b;
      ConcatAppend(a[1..], b);
      var p := JoinPiece(a[0]);
      assert Concat(a + b) == p + (Concat(a[1..]) + Concat(b));
      assert p + (Concat(a[1..]) + Concat(b)) == (p + Concat(a[1..])) + Concat(b);
    } else {
      assert a + b == b;
    }
  }

  /** One argument contributes its string form; undefined and null contribute nothing. */
  lemma ConcatSingle(x: Option<Value>)
    ensures Concat([x]) == JoinPiece(x)
    ensures x.None? || x == Some(Null) ==> Concat([x]) == ""
  {
    assert [x][1..] == [];
  }

  // -------------------------------------------------------------- coalesce

  /** `coalesce`: `values.find(_ => !!_)` once the options are popped. */
  function Coalesce(values: seq<Option<Value>>): (r: Option<Value>)
    ensures r.None? <==> forall i :: 0 <= i < |values| ==> !Truthy(values[i])
    ensures r.Some? ==> Truthy(r) && r in values
    ensures forall i :: 0 <= i < |values| && Truthy(values[i]) && (forall j :: 0 <= j < i ==> !Truthy(values[j])) ==> r == values[i]
  {
    if values == [] then None
    else if Truthy(values[0]) then values[0]
    else
      var r := Coalesce(values[1..]);
      assert forall i :: 1 <= i < |values| ==> values[i] == values[1..][i - 1];
      r
  }

  /** Coalescing a concatenation picks from the first part when it holds a truthy value. */
  lemma {:induction false} CoalesceAppend(a: seq<Option<Value>>, b: seq<Option<Value>>)
    ensures Coalesce(a + b) == if Coalesce(a).Some? then Coalesce(a) else Coalesce(b)
  {
    if a != [] {
      assert (a + b)[1..] == a[1..] + b;
      CoalesceAppend(a[1..], b);
    } else {
      assert a + b == b;
    }
  }

  // ------------------------------------------------------------ eq?, in?

  /** `eq?`: strict equality, the same in both revisions; it holds exactly of equal values. */
  predicate Eq(value1: Option<Value>, value2: Option<Value>)
    ensures Eq(value1, value2) <==> value1 == value2
  {
    StrictEquals(value1, value2)
  }

  /** `in?`: `Array.isArray(value1) && value1.indexOf(value2) >= 0`. */
  function In(value1: Option<Value>, value2: Option<Value>): (r: bool)
    ensures r <==> value1.Some? && value1.value.Arr? && exists i :: 0 <= i < |value1.value.items| && Eq(Some(value1.value.items[i]), value2)
    ensures !(value1.Some? && value1.value.Arr?) ==> !r
  {
    match value1
    case Some(Arr(items)) =>
      // an array of document values never holds undefined
      value2.Some? && IndexOf(items, value2.value) >= 0
    case _ => false
  }

  /** On a one-element array, `in?` is `eq?` with that element. */
  lemma InSingletonIsEq(x: Value, y: Option<Value>)
    ensures In(Some(Arr([x])), y) == Eq(Some(x), y)
  {
    if Eq(Some(x), y) {
      assert Eq(Some([x][0]), y);
    }
  }

  // ----------------------------------------------------------------- first

  /**
   * Which block a block helper renders: the body with a context (and, when
   * `key` is present, `@key` bound in the data frame), or the inverse (`else`)
   * block with the helper's own context.
   */
  datatype Block = Body(context: Option<Value>, key: Option<string>) | Inverse

  /** `x` is one of the entries of `container`: an element, a member's value, or a character. */
  predicate EntryOf(x: Value, container: Value) {
    match container
    case Arr(items) => x in items
    case Obj(members) => exists i :: 0 <= i < |members| && members[i].1 == x
    case Str(s) => exists i :: 0 <= i < |s| && x == Str([s[i]])
    case _ => false
  }

  /**
   * `first`: an array renders the body with its element 0 (the inverse when
   * empty); another truthy value renders the body with the property named by
   * its first own key, exposed as `@key`, unless that key is missing or empty;
   * a falsy value renders the inverse. A string's own keys are its indices.
   */
  function First(value: Option<Value>): (r: Block)
    ensures r.Body? ==> value.Some? && r.context.Some? && EntryOf(r.context.value, value.value)
    ensures !Truthy(value) ==> r == Inverse
    ensures value.Some? && value.value.Arr? ==>
      r == if value.value.items == [] then Inverse else Body(Some(value.value.items[0]), None)
    ensures value.Some? && value.value.Obj? ==>
      (r.Body? <==> value.value.members != [] && value.value.members[0].0 != "")
    ensures r.Body? && value.value.Obj? ==> r.key == Some(value.value.members[0].0)
  {
    match value
    case Some(Arr(items)) => if items != [] then Body(Some(items[0]), None) else Inverse
    case Some(Obj(members)) =>
      if members != [] && members[0].0 != "" then
        var key := members[0].0;
        Body(Lookup(members, key), Some(key))
      else Inverse
    case Some(Str(s)) =>
      if s != "" then
        assert s[..1] == [s[0]];
        Body(Some(Str(s[..1])), Some("0"))
      else Inverse
    case _ =>
      // numbers and booleans have no own keys; null and undefined are falsy
      Inverse
  }

  /** On an object, `first` renders the value of its first member with that member's key. */
  lemma FirstOfObject(members: seq<(string, Value)>)
    requires members != [] && members[0].0 != ""
    ensures First(Some(Obj(members))) == Body(Some(members[0].1), Some(members[0].0))
  {
  }

  // ----------------------------------------------------------------- value

  /** What a formal parameter of a helper receives: a template argument or the options object. */
  datatype Param = Arg(v: Option<Value>) | OptionsObject

  /**
   * The `i`-th formal parameter of a helper called from a template with
   * `args`: Handlebars passes the arguments followed by `options`, and
   * parameters beyond those are undefined.
   */
  function Bind(args: seq<Option<Value>>, i: nat): Param {
    if i < |args| then Arg(args[i]) else if i == |args| then OptionsObject else Arg(None)
  }

  /** `String(p)`. */
  function ParamString(p: Param): string {
    match p
    case Arg(v) => JsString(v)
    case OptionsObject => "[object Object]"
  }

  /** `type` is 'string', or undefined so that the default 'string' applies. */
  predicate SelectsString(typ: Param) {
    typ == Arg(Some(Str("string"))) || typ == Arg(None)
  }

  /**
   * The `value(value, type = 'string', _options)` function: with type
   * 'string' a JSON string literal of `String(value)`, otherwise
   * `String(value)` itself. The same function is registered by src/codegen.ts.
   */
  function ValueHelper(value: Param, typ: Param): (r: string)
    ensures SelectsString(typ) ==> Unquote(r) == Some(ParamString(value))
    ensures !SelectsString(typ) ==> r == ParamString(value)
  {
    if SelectsString(typ) then
      QuoteRoundTrip(ParamString(value));
      Quote(ParamString(value))
    else ParamString(value)
  }

  /**
   * `{{value a ...}}` as written: `type` is bound positionally, the options
   * object included. With no argument `value` is the options object and
   * `type` takes its default; with one argument `type` is the options object.
   */
  function InvokeValue(args: seq<Option<Value>>): (r: string)
    ensures |args| == 0 ==> Unquote(r) == Some("[object Object]")
    ensures |args| == 1 ==> r == JsString(args[0])
    ensures |args| >= 2 && (args[1] == Some(Str("string")) || args[1] == None) ==> Unquote(r) == Some(JsString(args[0]))
    ensures |args| >= 2 && args[1] != Some(Str("string")) && args[1] != None ==> r == JsString(args[0])
  {
    ValueHelper(Bind(args, 0), Bind(args, 1))
  }

  /**
   * Called with one argument, `type` receives the options object, so the
   * default never applies and the result is never the quoted literal.
   */
  lemma ValueOneArgumentIsNeverQuoted(x: Option<Value>)
    ensures InvokeValue([x]) == JsString(x)
    ensures InvokeValue([x]) != Quote(JsString(x))
  {
    QuoteLength(JsString(x));
  }

  /**
   * `{{value a ...}}` with the options object popped first, as `concat` and
   * `coalesce` do: a one-argument call yields the JSON string literal.
   */
  function InvokeValueFixed(args: seq<Option<Value>>): (r: string)
    ensures |args| == 1 ==> Unquote(r) == Some(JsString(args[0]))
    ensures |args| >= 2 ==> r == InvokeValue(args)
  {
    var value := if |args| > 0 then args[0] else None;
    var typ := if |args| > 1 then args[1] else None;
    ValueHelper(Arg(value), Arg(typ))
  }

  // --------------------------------------------------- schemaRefToTypeName

  /**
   * `schemaRefToTypeName`: the cased text after the last `/`, or the whole
   * reference cased when it has no `/`.
   */
  function SchemaRefToTypeName(ref: string, pascal: string -> string): (r: string)
    ensures exists k :: 0 <= k <= |ref| && '/' !in ref[k..] && (k == 0 || ref[k - 1] == '/') && r == pascal(ref[k..])
    ensures '/' !in ref ==> r == pascal(ref)
  {
    var last := LastSegment(ref);
    LastSegmentSpec(ref);
    var k := |ref| - |last|;
    assert ref[k..] == last;
    pascal(last)
  }

  /** The type name of a reference to a schema is the cased name of that schema. */
  lemma SchemaRefToTypeNameOfPointer(path: seq<string>, pascal: string -> string)
    requires |path| >= 1
    requires forall i :: 0 <= i < |path| ==> IsWord(path[i])
    ensures SchemaRefToTypeName(PointerOf(path), pascal) == pascal(path[|path| - 1])
  {
    var all := ["#"] + path;
    forall i | 0 <= i < |all|
      ensures '/' !in all[i]
    {
      if i > 0 {
        WordHasNoSlash(path[i - 1]);
      }
    }
    LastSegmentOfJoin(all);
  }
}
