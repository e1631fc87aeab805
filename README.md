# Template helpers of openapi3-typescript-codegen, in Dafny

This project models the Handlebars helper catalogue that the code generator
registers in the `Codegen` constructor. There are two revisions: an older one
in `lib/codegen.ts` and a newer, smaller one in `src/codegen.ts`.

The helpers run against a parsed OpenAPI 3 document. That document is the
datatype `JsValues.Value`: null, booleans, integers, strings, arrays, and
objects as ordered lists of members. JavaScript's `undefined` is `None`.

Modules:

- **Deref**: the `deref` helper and its inner `recursor`. The helper follows a
  local pointer `#/a/b/...` from the document root, either inside a `$ref`
  object or as a bare string.
- **Pointers**: the pointer pattern `^#(/\w+)+$`. It is a restricted form of the
  JSON Pointer fragment of section 6 of RFC 6901. The regular expression is a
  recursive predicate, proved equivalent to the `split('/')` form the helper
  uses.
- **Responses**: `successResponses`. It copies a Responses Object without its
  error statuses, building the output object key by key.
- **LibHelpers**: `concat`, `coalesce`, `eq?`, `in?`, `first`, `value` and
  `schemaRefToTypeName`. `value` emits a JSON string literal, per section 7 of
  RFC 8259, modelled in **JsonString**.
- **SrcHelpers**: the `src` revision of `in?` (`includes`, with no array guard)
  and `schemaToTypeName`. That revision's `value` and `eq?` are the same
  functions as in `lib` and are modelled once, in LibHelpers.
- **SwitchBlocks**: the `switch`/`case` block helpers of both revisions.
  - A block is a sequence of text, `case` and `switch` nodes. Rendering a block
    stands for `options.fn` / `options.inverse`. It reads and writes the
    context's `__switch_value__` and `__switch_triggered__` properties.
  - `lib` copies the context for the switch body. It is modelled as the pure
    `RenderL`.
  - `src` writes the properties on the context itself and deletes them
    afterwards. It is modelled as the class `TemplateContext`, whose methods
    `Switch` and `Case` are proved against `RenderS`.
  - Both revisions are compared with `Eval`: a switch renders its body under
    its own value when one of its cases fires, and its inverse otherwise.

Foreign code is passed in as parameters. The `Case.pascal`/`Case.camel` casing
functions are function parameters.

Some behaviour of the code is easy to misread; the model follows the code:

- Every matching `case` arm renders, in order, not only the first one
  (`SwitchBlocks.MatchingOutputAppend`, `SwitchBlocks.DuplicateArmRendersTwice`).
- `recursor` returns a falsy intermediate value such as `null` as it is, rather
  than "absent" (`Deref.WalkStopsAtFalsy`).
- `deref` is not exception-free:
  - A `$ref` that is not a string throws.
  - A null root throws.
  - A `$ref` string that fails the pattern gives undefined, not the value
    itself (`Deref.DerefMalformedRef`).
- `first` renders the inverse for an object whose first key is the empty
  string. A non-empty string renders its first character with key `"0"`.
- In `lib`, the inverse of a switch is rendered with the caller's own context.
  So a `case` placed in that inverse marks the caller's switch
  (`SwitchBlocks.LibSwitch`).
- In `src`, the inverse of a switch is rendered with the switch's own value
  still set. So a `case` in the inverse fires on that value: with value 2, a
  body `{{#case 1}}one{{/case}}` and an inverse `{{#case 2}}two{{/case}}`, `src`
  renders "two" where `lib` renders nothing
  (`SwitchBlocks.SrcInverseSeesOwnValue`). This is why the agreement of the two
  revisions is proved for templates whose inverses are plain text.
- The `src` revision of `in?` throws on anything that is neither an array nor
  a string, and does a substring search on a string.
- `contains?`, `and?` and `or?` are not registered by either file, so they are
  not part of this model.

## Model

| member | source | states |
|---|---|---|
| Deref.Walk | lib/codegen.ts:109-116 | `recursor`'s result is the value at some prefix of the path, and when that prefix is shorter than the path the value is falsy; `WalkFollowsTruthyPath` and `WalkStopsAtFalsy` pin down which prefix |
| Deref.PointerTarget | lib/codegen.ts:119-127 | the pointer `deref` follows, from a `$ref` string or a bare string, always matches the pattern and has at least one segment |
| Deref.Deref | lib/codegen.ts:108-131 | `deref` throws iff the `$ref` is not a string or a pointer is followed from a null root; a followed pointer gives `recursor` over its segments; a `$ref` failing the pattern gives undefined; any other value is returned unchanged |
| Deref.WalkFollowsTruthyPath | lib/codegen.ts:109-116 | when every intermediate value on the path is truthy, `recursor` returns exactly the value reached by successive key lookups (`Resolve`) |
| Deref.WalkStopsAtFalsy | lib/codegen.ts:109-116 | `recursor` stops at the first falsy intermediate value and returns it unchanged: undefined for a missing key, null for a null |
| Deref.DerefPointer | lib/codegen.ts:119-127 | for every path of words, the `$ref` object form (with any further members) and the bare-string form of its pointer both resolve to `recursor(path, root)`, and both throw on a null root |
| Deref.DerefResolvesPath | lib/codegen.ts:119-127 | a pointer whose intermediate values are truthy resolves to the value at the end of its path |
| Deref.DerefIdentity | lib/codegen.ts:128-130 | a value that is neither a `$ref` object nor a pointer string is returned unchanged |
| Deref.DerefMalformedRef | lib/codegen.ts:119-124 | a `$ref` string that fails the pattern yields undefined, without error |
| Pointers.MatchesPointer | lib/codegen.ts:121-125 | the test `/^#(\/\w+)+$/` used at both lines, as a recursive predicate; `PointerRoundTrip` and `MatchedPointerSegments` show it holds exactly of the pointers of non-empty word paths |
| Pointers.PointerRoundTrip | lib/codegen.ts:120-122 | every non-empty path of `\w+` words written as `#/w1/.../wn` matches the pattern, and `split('/')` after the `#` gives back the path |
| Pointers.MatchedPointerSegments | lib/codegen.ts:120-122 | every string matching the pattern splits into one or more words and is the pointer of those words |
| JsStrings.JoinSplit | lib/codegen.ts:22 | `split` loses nothing: joining the pieces with the separator gives back the string |
| JsStrings.LastSegmentSpec | lib/codegen.ts:22 | the first element of the reversed split is the suffix after the last `/`: it holds no `/`, is preceded by `/` unless it is the whole string, and is the whole string when there is no `/` |
| JsonString.Quote | lib/codegen.ts:43 | `JSON.stringify` of a string: quotes, the short escapes and `\u00XX` for other control characters; `QuoteRoundTrip` decodes it back with an independent RFC 8259 decoder |
| JsonString.QuoteRoundTrip | lib/codegen.ts:43 | `JSON.stringify` of a string is a JSON string literal that decodes back to that string |
| JsonString.QuoteLength | lib/codegen.ts:43 | the literal is at least two characters longer than the string, so it never equals the string |
| Responses.IsErrorStatus | lib/codegen.ts:59 | the test `/^([45][\dX]{2}|default)$/`; `KeepSuccess` and `KeepSuccessExample` show which keys it removes |
| Responses.KeepSuccessExample | lib/codegen.ts:57-63 | of `200`, `404`, `default`, `2XX` and `5XX`, exactly `200` and `2XX` are kept, in that order |
| Responses.KeepSuccess | lib/codegen.ts:59 | a member is kept iff it is in the input and its key is neither `4xx`/`5xx` (digits or `X`) nor `default` |
| Responses.KeepSuccessSubsequence | lib/codegen.ts:59 | the kept members keep their original order |
| Responses.KeepSuccessLookup | lib/codegen.ts:57-63 | in the result, an error-status key is absent and every other key holds what the input holds |
| Responses.SuccessResponses | lib/codegen.ts:57-63 | the loop that copies each kept key into `out` builds exactly the filtered object, and every key of `out` reads as in the input unless it is an error status |
| LibHelpers.Concat | lib/codegen.ts:34-38 | with no undefined argument, `concat` is `Array.prototype.join` of the arguments with the empty separator |
| LibHelpers.ConcatAppend | lib/codegen.ts:34-38 | `concat` joins its arguments in order: splitting the argument list splits the output |
| LibHelpers.ConcatSingle | lib/codegen.ts:34-38 | one argument contributes its string form, and nothing when it is null or undefined |
| LibHelpers.Coalesce | lib/codegen.ts:102-106 | `coalesce` is undefined iff no argument is truthy, and otherwise returns the first truthy argument |
| LibHelpers.CoalesceAppend | lib/codegen.ts:102-106 | a truthy argument earlier in the list always wins over later ones |
| LibHelpers.Eq | lib/codegen.ts:49-51 | `eq?`, defined type by type as `===`, holds exactly of equal values; the same helper is registered at src/codegen.ts:26-28 |
| LibHelpers.In | lib/codegen.ts:53-55 | `in?` is true iff the first argument is an array holding an element strictly equal to the second; it is false on every non-array |
| LibHelpers.InSingletonIsEq | lib/codegen.ts:49-55 | on a one-element array, `in?` coincides with `eq?` on that element |
| LibHelpers.First | lib/codegen.ts:85-100 | `first` renders the body with element 0 of a non-empty array, with the first member's value of an object whose first key is non-empty (exposing that key), and the inverse for empty arrays, other objects and falsy values; a rendered context is always an entry of the container |
| LibHelpers.FirstOfObject | lib/codegen.ts:91-95 | on an object with a non-empty first key, `first` renders that member's value with that key |
| LibHelpers.ValueHelper | lib/codegen.ts:40-47 | with `type` 'string' or omitted, the output is a JSON literal that decodes to `String(value)`; with any other type it is `String(value)` |
| LibHelpers.InvokeValue | lib/codegen.ts:40-47 | `value` as Handlebars calls it: with no argument the literal of "[object Object]"; with one argument the unquoted `String(x)`; with a type 'string' or undefined the literal of `String(x)`; with any other type `String(x)` |
| LibHelpers.ValueOneArgumentIsNeverQuoted | lib/codegen.ts:40-47 | called from a template with one argument, `value` outputs `String(x)` and never its quoted literal, because the options object fills `type` |
| LibHelpers.InvokeValueFixed | lib/codegen.ts:40-47 | with the options object removed first, a one-argument call yields the literal of `String(x)`, and calls with a type behave as before |
| LibHelpers.SchemaRefToTypeName | lib/codegen.ts:21-24 | the result is the cased suffix of the ref that follows its last `/` (the whole ref when it has none) |
| LibHelpers.SchemaRefToTypeNameOfPointer | lib/codegen.ts:21-24 | the type name of the pointer to a schema path is the pascal-cased last segment of the path |
| SrcHelpers.SchemaToTypeName | src/codegen.ts:12-15 | the same extraction as lib's helper, camel-cased: the camel-cased suffix after the last `/` |
| SrcHelpers.SchemaToTypeNameOfPointer | src/codegen.ts:12-15 | the name derived from the pointer to a schema path is the camel-cased last segment of the path |
| SrcHelpers.In | src/codegen.ts:30-32 | `includes` succeeds iff the list is an array or a string; on an array it is membership, on a string a substring search for `String(value2)`; otherwise it throws |
| SrcHelpers.InRevisionsAgreeOnArrays | src/codegen.ts:30-32 | on arrays the two revisions of `in?` agree; on everything else `lib` answers false |
| SwitchBlocks.RenderL | lib/codegen.ts:65-83 | rendering a block in `lib`, node by node, threading the context's switch properties; its meaning is `RenderLMeaning` |
| SwitchBlocks.RenderNodeL | lib/codegen.ts:65-83 | one `case` (mark the context, render the body) or `switch` (render the body with a copy holding the value, else the inverse with the caller's context); its meaning is `RenderNodeLMeaning` and `LibSwitch` |
| SwitchBlocks.RenderLMeaning | lib/codegen.ts:65-83 | `lib` rendering of any block outputs its meaning `Eval`, and changes the context only by setting the flag, exactly when a case of the context's switch fires |
| SwitchBlocks.RenderNodeLMeaning | lib/codegen.ts:65-83 | the same for one `case` or `switch` node |
| SwitchBlocks.LibSwitch | lib/codegen.ts:65-74 | `switch` outputs its body iff a case fired and the inverse (in the caller's context) otherwise; the caller's context never gains a switch value and is unchanged unless the inverse itself holds a firing case |
| SwitchBlocks.ArmNodesMeaning | lib/codegen.ts:76-83 | a list of `case` arms fires iff some arm holds the value, and outputs the bodies of all matching arms in order |
| SwitchBlocks.LibSwitchOverArms | lib/codegen.ts:65-83 | a switch over case arms with a text inverse outputs every matching arm's body, or the inverse when none matches, and leaves the caller's context untouched |
| SwitchBlocks.MatchingOutputAppend | lib/codegen.ts:76-83 | matching does not stop at the first arm: the output over a concatenation of arm lists is the concatenation of outputs |
| SwitchBlocks.DuplicateArmRendersTwice | lib/codegen.ts:76-83 | two arms matching the same value both render, in order |
| SwitchBlocks.RenderS | src/codegen.ts:34-53 | rendering a block in `src`, node by node, on the one shared context; related to `lib` and `Eval` by `SwitchFreeRevisionsAgree` and `FlatRenderMeaning` |
| SwitchBlocks.RenderNodeS | src/codegen.ts:34-53 | one `case` as in `lib`, or a `switch` that sets both properties on the context, renders the body, renders the inverse on the same context when the flag is unset, and deletes both; see `SrcCase`, `SrcSwitch`, `NestedSwitchLosesMatch`, `SrcInverseSeesOwnValue` |
| SwitchBlocks.SwitchFreeRevisionsAgree | src/codegen.ts:46-53 | on blocks without a `switch`, the `src` and `lib` renderings coincide, output and context |
| SwitchBlocks.SrcCase | src/codegen.ts:46-53 | `case` sets the flag and renders its body iff the switch value is among its arguments; otherwise it renders nothing and leaves the context unchanged |
| SwitchBlocks.SrcSwitch | src/codegen.ts:34-44 | `switch` outputs its body iff a case fired and the inverse otherwise, and afterwards the context has neither property |
| SwitchBlocks.FlatRenderMeaning | src/codegen.ts:34-53 | on templates whose switches hold no nested switch and a plain-text inverse, `src` rendering outputs the meaning `Eval` and never leaves a switch value behind |
| SwitchBlocks.FlatRevisionsAgree | src/codegen.ts:34-53 | on such templates the two revisions produce the same output |
| SwitchBlocks.NestedSwitchLosesMatch | src/codegen.ts:34-44 | a switch nested in a matching case makes the outer `src` switch render its inverse ("none"), where `lib` and the meaning give "AB" |
| SwitchBlocks.SrcInverseSeesOwnValue | src/codegen.ts:38-40 | a `case` in a `src` inverse fires on the switch's own value ("two"), where `lib` and `Eval` render nothing |
| SwitchBlocks.TemplateContext.RenderBlock | src/codegen.ts:37-39 | rendering a block against the context yields `RenderS`'s output and state |
| SwitchBlocks.TemplateContext.Case | src/codegen.ts:46-53 | the method's output and the context's new properties are `RenderS` of the case; with no match it outputs nothing and changes nothing |
| SwitchBlocks.TemplateContext.Switch | src/codegen.ts:34-44 | the method's output and new properties are `RenderS` of the switch, and both properties are deleted afterwards |

## Left out

- The template engine itself is not modelled: `compile`, partial registration
  and rendering. `options.fn` and `options.inverse` are reduced to rendering a
  block of text, `case` and `switch` nodes. Other block helpers inside a
  switch (`each`, `with`, `first`), which change `this`, are not modelled.
- File and promise plumbing (`generate`, `_generateFile`, directory creation,
  reads and writes) is I/O. lib/main.ts, lib/schema.ts and src/helpers.ts are
  not part of this model.
- `valueName` and `className` are single calls of the casing library. The
  casing functions are passed in as parameters, so their word splitting is not
  modelled.
- Property access is defined on objects only, and `Object.keys` follows member
  order. JavaScript also reads numeric-string keys of arrays, indices and
  `length` of strings, and orders integer-like keys first. None of that is
  modelled.
- `Deref.Walk` reads own members only. In JavaScript, `obj[key]` at
  lib/codegen.ts:111 also reads members inherited from `Object.prototype`.
  `constructor`, `toString`, `valueOf` and `hasOwnProperty` all match `\w+`, so
  `#/components/schemas/constructor` yields a function. Also, an object with
  an own member named `hasOwnProperty` makes the call at lib/codegen.ts:119
  throw. Neither is modelled.
- Strict equality on arrays and objects compares structure, where JavaScript
  compares references. Numbers are integers: there is no floating point and no
  `NaN`, so `indexOf` and `includes` agree.
- Strings are sequences of Unicode scalar values, not UTF-16 code units.
  `JsonString.DecodeBody` refuses `\u` escapes of surrogates, which
  `JSON.stringify` of a well-formed string never produces.
- `Deref.Deref`: the root is a document value. Two other cases are not
  modelled. If the template omits the root (`{{deref x}}`), Handlebars binds
  its options object to `root`, and the pointer is walked over the options
  object's properties without an error. An explicit undefined root throws in
  JavaScript, just like the null root.
- `Responses.SuccessResponses` takes the members of an object with distinct
  keys, as every JavaScript object has. A non-object argument, for which
  `Object.keys` throws or returns indices, is not modelled.
- `LibHelpers.SchemaRefToTypeName` and `SrcHelpers.SchemaToTypeName` take a
  string. A non-string argument, for which `split` throws, is not modelled.
- `LibHelpers.First`: only the `key` entry of the data frame is modelled, not
  the rest of `options.data`.
- `SwitchBlocks.SrcCase` and `SwitchBlocks.SrcSwitch` state their meaning only
  for bodies without a nested switch, because a nested switch deletes the
  properties (see Findings). The general behaviour is stated by
  `SwitchBlocks.TemplateContext.Switch` against `RenderS`.

## Findings

| source | as written | input that shows it | evidently intended | confidence | as-written member | corrected member |
|---|---|---|---|---|---|---|
| lib/codegen.ts:40-47 (and src/codegen.ts:17-24) | `type` is the second formal parameter, so in a one-argument call Handlebars puts its options object there and the default `'string'` never applies | `{{value name}}` with `name` = `abc` outputs `abc` | the JSON literal `"abc"` (remove the options before binding `type`) | not executed | LibHelpers.ValueOneArgumentIsNeverQuoted | LibHelpers.InvokeValueFixed |
| src/codegen.ts:34-44 | a `switch` nested in a matching `case` deletes `__switch_triggered__` from the shared context, so the outer switch renders its inverse | `{{#switch a}}{{#case a}}A{{#switch b}}{{#case b}}B{{/case}}{{/switch}}{{/case}}{{else}}none{{/switch}}` renders `none` | `AB`, as the copying switch of lib/codegen.ts:65-74 renders | not executed | SwitchBlocks.NestedSwitchLosesMatch | SwitchBlocks.RenderLMeaning |
