/**
 * The helpers of the `Codegen` constructor in src/codegen.ts that differ from
 * lib/codegen.ts: `schemaToTypeName` and `in?`. Its `value` and `eq?` are the
 * same functions as lib's (LibHelpers.ValueHelper, LibHelpers.Eq); its
 * `switch`/`case` are in SwitchBlocks.
 */
module SrcHelpers {
  import opened Wrappers
  import opened JsValues
  import opened JsStrings
  import opened Pointers
  import LibHelpers

  /**
   * `schemaToTypeName`: the last-segment extraction of lib's
   * `schemaRefToTypeName`, camel-cased instead of pascal-cased.
   */
  function SchemaToTypeName(ref: string, camel: string -> string): (r: string)
    ensures exists k :: 0 <= k <= |ref| && '/' !in ref[k..] && (k == 0 || ref[k - 1] == '/') && r == camel(ref[k..])
  {
    LibHelpers.SchemaRefToTypeName(ref, camel)
  }

  /** The name derived from a reference to a schema is the camel-cased name of that schema. */
  lemma SchemaToTypeNameOfPointer(path: seq<string>, camel: string -> string)
    requires |path| >= 1
    requires forall i :: 0 <= i < |path| ==> IsWord(path[i])
    ensures SchemaToTypeName(PointerOf(path), camel) == camel(path[|path| - 1])
  {
    var all := ["#"] + path;
    forall i | 0 <= i < |all|
      ensures '/' !in all[i]
    {
      if i > 0 {
        WordHasNoSlash(path[i - 1]);
      }
    }
    LastSegmentOfJoin(all);
  }

  /**
   * `in?`: `value1.includes(value2)` with no array guard. An array is searched
   * for the value; a string is searched for `String(value2)` as a substring;
   * on anything else `includes` is not a function and the call throws.
   */
  function In(value1: Option<Value>, value2: Option<Value>): (r: Result<bool, JsError>)
    ensures r.Ok? <==> value1.Some? && (value1.value.Arr? || value1.value.Str?)
    ensures r.Ok? && value1.value.Arr? ==> (r.value <==> value2.Some? && value2.value in value1.value.items)
    ensures r.Ok? && value1.value.Str? ==> (r.value <==> exists i :: OccursAt(value1.value.s, JsString(value2), i))
  {
    match value1
    case Some(Arr(items)) => Ok(value2.Some? && value2.value in items)
    case Some(Str(s)) =>
      StringIncludesSpec(s, JsString(value2));
      Ok(StringIncludes(s, JsString(value2)))
    case _ => Err(TypeError)
  }

  /**
   * The two revisions of `in?` agree on arrays; on anything that is not an
   * array lib answers false, where src searches a string or throws.
   */
  lemma InRevisionsAgreeOnArrays(value1: Option<Value>, value2: Option<Value>)
    ensures value1.Some? && value1.value.Arr? ==> In(value1, value2) == Ok(LibHelpers.In(value1, value2))
    ensures !(value1.Some? && value1.value.Arr?) ==> !LibHelpers.In(value1, value2)
  {
    if value1.Some? && value1.value.Arr? {
      var items := value1.value.items;
      if LibHelpers.In(value1, value2) {
        var i :| 0 <= i < |items| && LibHelpers.Eq(Some(items[i]), value2);
        assert value2.value in items;
      }
    }
  }
}
