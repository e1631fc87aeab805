/**
 * The `switch`/`case` block helpers of both revisions. A `switch` block
 * renders its body with a switch value in scope; a `case` inside it renders
 * its own body, and marks the switch as triggered, when the value is among its
 * arguments; the switch renders its inverse (`else`) block instead when no
 * case triggered.
 *
 * The template engine is reduced to what these helpers observe: a block is a
 * sequence of text, `case` blocks and `switch` blocks, and rendering a block
 * (`options.fn` / `options.inverse`) renders its nodes in order against the
 * context's two switch properties, `__switch_value__` and
 * `__switch_triggered__` (a `Frame`).
 *
 * lib/codegen.ts gives the body a shallow copy of the context (`RenderL`);
 * src/codegen.ts sets the properties on the context itself and deletes them
 * afterwards (`RenderS`, and the class `TemplateContext` whose methods are
 * the helpers). Both are compared with `Eval`, the reading of a switch as a
 * choice between its body and its inverse.
 */
module SwitchBlocks {
  import opened Wrappers
  import opened JsValues

  /** A block's content: text, `{{#case a b ...}}body{{/case}}`, or `{{#switch v}}body{{else}}inverse{{/switch}}`. */
  datatype Node =
    | Text(text: string)
    | CaseBlock(candidates: seq<Option<Value>>, body: seq<Node>)
    | SwitchBlock(value: Option<Value>, body: seq<Node>, inverse: seq<Node>)

  /** A property of the context object: absent (never set, or deleted) or present with a value. */
  datatype Slot<+T> = Missing | Present(val: T)

  /** The context's `__switch_value__` and `__switch_triggered__` properties. */
  datatype Frame = Frame(value: Slot<Option<Value>>, triggered: Slot<bool>)

  /** A context with neither property. */
  const Bare := Frame(Missing, Missing)

  /** `this.__switch_value__`: undefined when absent. */
  function Current(f: Frame): Option<Value> {
    if f.value.Present? then f.value.val else None
  }

  /** `!!this.__switch_triggered__`: an absent property reads as undefined, which is falsy. */
  predicate IsTriggered(f: Frame) {
    f.triggered == Present(true)
  }

  function NodeSize(n: Node): nat {
    match n
    case Text(_) => 1
    case CaseBlock(_, b) => 1 + BlockSize(b)
    case SwitchBlock(_, b, inv) => 1 + BlockSize(b) + BlockSize(inv)
  }

  function BlockSize(nodes: seq<Node>): nat {
    if nodes == [] then 0 else NodeSize(nodes[0]) + BlockSize(nodes[1..])
  }

  // ------------------------------------------------------------- reference

  /** Some `case` reached while rendering `nodes` with switch value `cur` has `cur` among its arguments. */
  predicate Fires(nodes: seq<Node>, cur: Option<Value>) {
    nodes != [] && (FiresNode(nodes[0], cur) || Fires(nodes[1..], cur))
  }

  /**
   * A `case` fires on its own value; a nested `switch` fires for the
   * enclosing one only through its inverse, which is rendered in the
   * enclosing context when its own body has no firing case.
   */
  predicate FiresNode(n: Node, cur: Option<Value>) {
    match n
    case Text(_) => false
    case CaseBlock(c, _) => cur in c
    case SwitchBlock(v, b, inv) => !Fires(b, v) && Fires(inv, cur)
  }

  /**
   * What a block means: text is itself, a `case` is its body when the
   * switch value is among its arguments and nothing otherwise, a `switch` is
   * its body under its own value when a case of it fires and its inverse
   * otherwise. Every firing case contributes, in order.
   */
  function Eval(nodes: seq<Node>, cur: Option<Value>): string {
    if nodes == [] then "" else EvalNode(nodes[0], cur) + Eval(nodes[1..], cur)
  }

  function EvalNode(n: Node, cur: Option<Value>): string {
    match n
    case Text(s) => s
    case CaseBlock(c, b) => if cur in c then Eval(b, cur) else ""
    case SwitchBlock(v, b, inv) => if Fires(b, v) then Eval(b, v) else Eval(inv, cur)
  }

  // ---------------------------------------------------- lib: copied context

  /** Rendering a block in lib/codegen.ts: the output and the context's switch properties afterwards. */
  function RenderL(nodes: seq<Node>, f: Frame): (string, Frame) {
    if nodes == [] then ("", f)
    else
      var (h1, f1) := RenderNodeL(nodes[0], f);
      var (h2, f2) := RenderL(nodes[1..], f1);
      (h1 + h2, f2)
  }

  /**
   * A `case` marks the context it is rendered in and renders its body there.
   * A `switch` renders its body with a copy of the context holding its value
   * and an unset flag, and the inverse with the original context when the
   * copy's flag was not set; the caller's context is never written by the
   * switch itself.
   */
  function RenderNodeL(n: Node, f: Frame): (string, Frame) {
    match n
    case Text(s) => (s, f)
    case CaseBlock(c, b) =>
      if Current(f) in c then RenderL(b, f.(triggered := Present(true))) else ("", f)
    case SwitchBlock(v, b, inv) =>
      var (html, context) := RenderL(b, Frame(Present(v), Present(false)));
      if IsTriggered(context) then (html, f) else RenderL(inv, f)
  }

  /**
   * lib's rendering is the reference meaning, and the only change it makes
   * to the context is setting the flag, exactly when a case of the context's
   * own switch fires.
   */
  lemma {:induction false} RenderLMeaning(nodes: seq<Node>, f: Frame)
    ensures RenderL(nodes, f) ==
      (Eval(nodes, Current(f)), if Fires(nodes, Current(f)) then f.(triggered := Present(true)) else f)
  {
    if nodes != [] {
      RenderNodeLMeaning(nodes[0], f);
      var f1 := RenderNodeL(nodes[0], f).1;
      RenderLMeaning(nodes[1..], f1);
    }
  }

  lemma {:induction false} RenderNodeLMeaning(n: Node, f: Frame)
    ensures RenderNodeL(n, f) ==
      (EvalNode(n, Current(f)), if FiresNode(n, Current(f)) then f.(triggered := Present(true)) else f)
  {
    match n
    case Text(_) =>
    case CaseBlock(c, b) =>
      if Current(f) in c {
        RenderLMeaning(b, f.(triggered := Present(true)));
      }
    case SwitchBlock(v, b, inv) =>
      RenderLMeaning(b, Frame(Present(v), Present(false)));
      RenderLMeaning(inv, f);
  }

  /**
   * lib's `switch` outputs its body when a case fired and the inverse,
   * rendered with the caller's context, otherwise. The caller's context never
   * gains a switch value, and is left exactly as it was unless the inverse
   * itself holds a case that fires for the caller's switch.
   */
  lemma LibSwitch(v: Option<Value>, b: seq<Node>, inv: seq<Node>, f: Frame)
    ensures RenderNodeL(SwitchBlock(v, b, inv), f).0 == if Fires(b, v) then Eval(b, v) else Eval(inv, Current(f))
    ensures RenderNodeL(SwitchBlock(v, b, inv), f).1.value == f.value
    ensures Fires(b, v) || !Fires(inv, Current(f)) ==> RenderNodeL(SwitchBlock(v, b, inv), f).1 == f
  {
    RenderNodeLMeaning(SwitchBlock(v, b, inv), f);
  }

  // --------------------------------------------------- a switch over arms

  /** A list of arms: each is a `case`'s arguments and its body's output. */
  type Arm = (seq<Option<Value>>, string)

  function ArmNodes(arms: seq<Arm>): seq<Node> {
    if arms == [] then [] else [CaseBlock(arms[0].0, [Text(arms[0].1)])] + ArmNodes(arms[1..])
  }

  predicate AnyArmMatches(v: Option<Value>, arms: seq<Arm>) {
    exists i :: 0 <= i < |arms| && v in arms[i].0
  }

  /** The outputs of all arms that have `v` among their arguments, in order. */
  function MatchingOutput(v: Option<Value>, arms: seq<Arm>): string {
    if arms == [] then ""
    else (if v in arms[0].0 then arms[0].1 else "") + MatchingOutput(v, arms[1..])
  }

  /** A switch over arms: every matching arm's output, or the inverse when none matches. */
  function SwitchOverArms(v: Option<Value>, arms: seq<Arm>, inverse: string): string {
    if AnyArmMatches(v, arms) then MatchingOutput(v, arms) else inverse
  }

  /** The arms of a list, rendered as a block, fire and output as the list says. */
  lemma {:induction false} ArmNodesMeaning(v: Option<Value>, arms: seq<Arm>)
    ensures Fires(ArmNodes(arms), v) <==> AnyArmMatches(v, arms)
    ensures Eval(ArmNodes(arms), v) == MatchingOutput(v, arms)
  {
    if arms != [] {
      ArmNodesMeaning(v, arms[1..]);
      var nodes := ArmNodes(arms);
      assert nodes[0] == CaseBlock(arms[0].0, [Text(arms[0].1)]);
      assert nodes[1..] == ArmNodes(arms[1..]);
      assert Eval([Text(arms[0].1)], v) == arms[0].1;
      if AnyArmMatches(v, arms[1..]) {
        var i :| 0 <= i < |arms[1..]| && v in arms[1..][i].0;
        assert v in arms[i + 1].0;
      }
      if AnyArmMatches(v, arms) && v !in arms[0].0 {
        var i :| 0 <= i < |arms| && v in arms[i].0;
        assert v in arms[1..][i - 1].0;
      }
    }
  }

  /** lib's `switch` over a list of arms with a text inverse is `SwitchOverArms`, and leaves the context as it was. */
  lemma LibSwitchOverArms(v: Option<Value>, arms: seq<Arm>, inverse: string, f: Frame)
    ensures RenderNodeL(SwitchBlock(v, ArmNodes(arms), [Text(inverse)]), f) == (SwitchOverArms(v, arms, inverse), f)
  {
    assert [Text(inverse)][1..] == [];
    assert !Fires([Text(inverse)], Current(f));
    assert Eval([Text(inverse)], Current(f)) == inverse;
    ArmNodesMeaning(v, arms);
    RenderNodeLMeaning(SwitchBlock(v, ArmNodes(arms), [Text(inverse)]), f);
  }

  /** Matching does not stop at the first arm: the arms of both parts of a list contribute. */
  lemma {:induction false} MatchingOutputAppend(v: Option<Value>, a: seq<Arm>, b: seq<Arm>)
    ensures MatchingOutput(v, a + b) == MatchingOutput(v, a) + MatchingOutput(v, b)
  {
    if a != [] {
      assert (a + b)[1..] == a[1..] + b;
      MatchingOutputAppend(v, a[1..], b);
    } else {
      assert a + b == b;
    }
  }

  /** Two arms that both match render both bodies, in order. */
  lemma DuplicateArmRendersTwice(v: Option<Value>, x: Option<Value>, first: string, second: string, inverse: string)
    requires v != x
    ensures SwitchOverArms(v, [([x], "other"), ([v], first), ([v], second)], inverse) == first + second
  {
    var arms: seq<Arm> := [([x], "other"), ([v], first), ([v], second)];
    assert v in arms[1].0;
    MatchingOutputAppend(v, arms[..1], arms[1..]);
    assert arms[..1] + arms[1..] == arms;
    assert arms[..1][1..] == [];
    assert arms[1..][1..][1..] == [];
  }

  // ------------------------------------------------ src: context mutated

  /** Rendering a block in src/codegen.ts: the output and the context's switch properties afterwards. */
  function RenderS(nodes: seq<Node>, f: Frame): (string, Frame) {
    if nodes == [] then ("", f)
    else
      var (h1, f1) := RenderNodeS(nodes[0], f);
      var (h2, f2) := RenderS(nodes[1..], f1);
      (h1 + h2, f2)
  }

  /**
   * A `case` is as in lib. A `switch` sets both properties on the context
   * itself, renders its body, renders the inverse with the same context when
   * the flag is not set afterwards, and then deletes both properties.
   */
  function RenderNodeS(n: Node, f: Frame): (string, Frame) {
    match n
    case Text(s) => (s, f)
    case CaseBlock(c, b) =>
      if Current(f) in c then RenderS(b, f.(triggered := Present(true))) else ("", f)
    case SwitchBlock(v, b, inv) =>
      var (html, g) := RenderS(b, Frame(Present(v), Present(false)));
      var out := if IsTriggered(g) then html else RenderS(inv, g).0;
      (out, Bare)
  }

  /** No `switch` anywhere in the block. */
  predicate SwitchFree(nodes: seq<Node>) {
    nodes == [] || (SwitchFreeNode(nodes[0]) && SwitchFree(nodes[1..]))
  }

  predicate SwitchFreeNode(n: Node) {
    match n
    case Text(_) => true
    case CaseBlock(_, b) => SwitchFree(b)
    case SwitchBlock(_, _, _) => false
  }

  /** Without a `switch`, the two revisions render alike. */
  lemma {:induction false} SwitchFreeRevisionsAgree(nodes: seq<Node>, f: Frame)
    requires SwitchFree(nodes)
    ensures RenderS(nodes, f) == RenderL(nodes, f)
  {
    if nodes != [] {
      SwitchFreeNodeRevisionsAgree(nodes[0], f);
      SwitchFreeRevisionsAgree(nodes[1..], RenderNodeS(nodes[0], f).1);
    }
  }

  lemma {:induction false} SwitchFreeNodeRevisionsAgree(n: Node, f: Frame)
    requires SwitchFreeNode(n)
    ensures RenderNodeS(n, f) == RenderNodeL(n, f)
  {
    match n
    case Text(_) =>
    case CaseBlock(c, b) =>
      SwitchFreeRevisionsAgree(b, f.(triggered := Present(true)));
  }

  /**
   * src's `case` around a switch-free body sets the flag and renders its
   * body iff the switch value is among its arguments; otherwise it renders
   * nothing and leaves the context as it was.
   */
  lemma SrcCase(c: seq<Option<Value>>, b: seq<Node>, f: Frame)
    requires SwitchFree(b)
    ensures RenderNodeS(CaseBlock(c, b), f) ==
      if Current(f) in c then (Eval(b, Current(f)), f.(triggered := Present(true))) else ("", f)
  {
    SwitchFreeNodeRevisionsAgree(CaseBlock(c, b), f);
    RenderNodeLMeaning(CaseBlock(c, b), f);
  }

  /**
   * src's `switch` with a switch-free body outputs the body iff one of its
   * cases fired, the inverse otherwise, and leaves the context with neither
   * property.
   */
  lemma SrcSwitch(v: Option<Value>, b: seq<Node>, inv: seq<Node>, f: Frame)
    requires SwitchFree(b)
    ensures RenderNodeS(SwitchBlock(v, b, inv), f).0 ==
      if Fires(b, v) then Eval(b, v) else RenderS(inv, Frame(Present(v), Present(false))).0
    ensures RenderNodeS(SwitchBlock(v, b, inv), f).1 == Bare
  {
    SwitchFreeRevisionsAgree(b, Frame(Present(v), Present(false)));
    RenderLMeaning(b, Frame(Present(v), Present(false)));
  }

  /** Every node is text. */
  predicate TextOnly(nodes: seq<Node>) {
    forall i :: 0 <= i < |nodes| ==> nodes[i].Text?
  }

  lemma {:induction false} TextOnlyRender(nodes: seq<Node>, f: Frame, cur: Option<Value>)
    requires TextOnly(nodes)
    ensures RenderS(nodes, f) == (Eval(nodes, cur), f)
  {
    if nodes != [] {
      TextOnlyRender(nodes[1..], f, cur);
    }
  }

  /**
   * Templates src renders as intended: every `switch` has a switch-free body
   * and a plain-text inverse, wherever it occurs.
   */
  predicate Flat(nodes: seq<Node>) {
    nodes == [] || (FlatNode(nodes[0]) && Flat(nodes[1..]))
  }

  predicate FlatNode(n: Node) {
    match n
    case Text(_) => true
    case CaseBlock(_, b) => Flat(b)
    case SwitchBlock(_, b, inv) => SwitchFree(b) && TextOnly(inv)
  }

  /** Rendered by src from a context without a switch value, a flat block means what it should, and keeps the context without one. */
  lemma {:induction false} FlatRenderMeaning(nodes: seq<Node>, f: Frame)
    requires Flat(nodes)
    requires f.value == Missing
    ensures RenderS(nodes, f).0 == Eval(nodes, None)
    ensures RenderS(nodes, f).1.value == Missing
  {
    if nodes != [] {
      FlatNodeRenderMeaning(nodes[0], f);
      FlatRenderMeaning(nodes[1..], RenderNodeS(nodes[0], f).1);
    }
  }

  lemma {:induction false} FlatNodeRenderMeaning(n: Node, f: Frame)
    requires FlatNode(n)
    requires f.value == Missing
    ensures RenderNodeS(n, f).0 == EvalNode(n, None)
    ensures RenderNodeS(n, f).1.value == Missing
  {
    match n
    case Text(_) =>
    case CaseBlock(c, b) =>
      if None in c {
        FlatRenderMeaning(b, f.(triggered := Present(true)));
      }
    case SwitchBlock(v, b, inv) =>
      var g0 := Frame(Present(v), Present(false));
      SwitchFreeRevisionsAgree(b, g0);
      RenderLMeaning(b, g0);
      TextOnlyRender(inv, RenderS(b, g0).1, None);
  }

  /** On flat templates, the two revisions produce the same output. */
  lemma FlatRevisionsAgree(nodes: seq<Node>)
    requires Flat(nodes)
    ensures RenderS(nodes, Bare).0 == RenderL(nodes, Bare).0
  {
    FlatRenderMeaning(nodes, Bare);
    RenderLMeaning(nodes, Bare);
  }

  /**
   * A `switch` nested in a matching `case` deletes the outer switch's
   * properties, so the outer switch renders its inverse although its case
   * matched, where lib (and the meaning of the block) renders the case.
   */
  lemma NestedSwitchLosesMatch()
    ensures var a := Some(Str("a"));
      var b := Some(Str("b"));
      var inner := SwitchBlock(b, [CaseBlock([b], [Text("B")])], []);
      var outer := SwitchBlock(a, [CaseBlock([a], [Text("A"), inner])], [Text("none")]);
      && RenderNodeS(outer, Bare).0 == "none"
      && RenderNodeL(outer, Bare).0 == "AB"
      && EvalNode(outer, None) == "AB"
  {
    var a := Some(Str("a"));
    var b := Some(Str("b"));
    var innerBody := [CaseBlock([b], [Text("B")])];
    var inner := SwitchBlock(b, innerBody, []);
    var caseBody := [Text("A"), inner];
    var outerBody := [CaseBlock([a], caseBody)];
    var outer := SwitchBlock(a, outerBody, [Text("none")]);
    assert innerBody[1..] == [] && [Text("B")][1..] == [] && [Text("none")][1..] == [];
    assert caseBody[1..] == [inner] && [inner][1..] == [] && outerBody[1..] == [];
    assert "A" + "B" == "AB" && "B" + "" == "B" && "AB" + "" == "AB" && "none" + "" == "none";
    // src, from the inside out
    var g0 := Frame(Present(b), Present(false));
    var g1 := Frame(Present(b), Present(true));
    var h0 := Frame(Present(a), Present(false));
    var h1 := Frame(Present(a), Present(true));
    assert RenderS([Text("B")], g1) == ("B", g1);
    assert RenderNodeS(innerBody[0], g0) == ("B", g1);
    assert RenderS(innerBody, g0) == ("B", g1);
    assert RenderNodeS(inner, h1) == ("B", Bare);
    assert RenderS([inner], h1) == ("B", Bare);
    assert RenderS(caseBody, h1) == ("AB", Bare);
    assert RenderNodeS(outerBody[0], h0) == ("AB", Bare);
    assert RenderS(outerBody, h0) == ("AB", Bare);
    assert RenderS([Text("none")], Bare) == ("none", Bare);
    // lib and the reference
    RenderNodeLMeaning(outer, Bare);
    assert Fires(outerBody, a);
    assert Eval([Text("B")], b) == "B";
    assert EvalNode(innerBody[0], b) == "B";
    assert Eval(innerBody, b) == "B";
    assert Fires(innerBody, b);
    assert EvalNode(inner, a) == "B";
    assert Eval([inner], a) == "B";
    assert Eval(caseBody, a) == "AB";
    assert Eval(outerBody, a) == "AB";
  }

  /**
   * src renders the inverse with the switch's own value still set, so a
   * `case` in the inverse fires on that value; lib renders it with the
   * caller's context, where it does not.
   */
  lemma SrcInverseSeesOwnValue()
    ensures var two := Some(Num(2));
      var sw := SwitchBlock(two, [CaseBlock([Some(Num(1))], [Text("one")])], [CaseBlock([two], [Text("two")])]);
      && RenderNodeS(sw, Bare).0 == "two"
      && RenderNodeL(sw, Bare).0 == ""
      && EvalNode(sw, None) == ""
  {
    var one := Some(Num(1));
    var two := Some(Num(2));
    var body := [CaseBlock([one], [Text("one")])];
    var inv := [CaseBlock([two], [Text("two")])];
    var sw := SwitchBlock(two, body, inv);
    var g := Frame(Present(two), Present(false));
    assert body[1..] == [] && inv[1..] == [] && [Text("two")][1..] == [];
    assert "two" + "" == "two" && "" + "" == "";
    assert RenderNodeS(body[0], g) == ("", g);
    assert RenderS(body, g) == ("", g);
    assert RenderS([Text("two")], g.(triggered := Present(true))) == ("two", g.(triggered := Present(true)));
    assert RenderNodeS(inv[0], g) == ("two", g.(triggered := Present(true)));
    assert RenderS(inv, g) == ("two", g.(triggered := Present(true)));
    RenderNodeLMeaning(sw, Bare);
    assert !Fires(body, two);
    assert Eval(inv, None) == "";
  }

  // ------------------------------------------ src: the helpers as methods

  /**
   * The template context src/codegen.ts's helpers run against: the data it
   * was created from, and the two switch properties that `switch` adds and
   * deletes and `case` reads and sets.
   */
  class TemplateContext {
    const data: Value
    var switchValue: Slot<Option<Value>>
    var switchTriggered: Slot<bool>

    function State(): Frame
      reads this
    {
      Frame(switchValue, switchTriggered)
    }

    constructor(data: Value)
      ensures this.data == data
      ensures State() == Bare
    {
      this.data := data;
      switchValue := Missing;
      switchTriggered := Missing;
    }

    /** `options.fn(this)` / `options.inverse(this)`: renders a block in order against this context. */
    method RenderBlock(nodes: seq<Node>) returns (html: string)
      modifies this`switchValue, this`switchTriggered
      ensures (html, State()) == RenderS(nodes, old(State()))
      decreases BlockSize(nodes), 1
    {
      if nodes == [] {
        return "";
      }
      assert BlockSize(nodes) == NodeSize(nodes[0]) + BlockSize(nodes[1..]);
      var h1: string;
      match nodes[0] {
        case Text(s) =>
          h1 := s;
        case CaseBlock(c, b) =>
          h1 := Case(c, b);
        case SwitchBlock(v, b, inv) =>
          h1 := Switch(v, b, inv);
      }
      var h2 := RenderBlock(nodes[1..]);
      html := h1 + h2;
    }

    /** The `case` helper: renders its body and sets the flag when the switch value is among `candidates`. */
    method Case(candidates: seq<Option<Value>>, body: seq<Node>) returns (html: string)
      modifies this`switchValue, this`switchTriggered
      ensures (html, State()) == RenderNodeS(CaseBlock(candidates, body), old(State()))
      ensures Current(old(State())) !in candidates ==> html == "" && State() == old(State())
      decreases BlockSize(body) + 1, 0
    {
      if Current(State()) in candidates {
        switchTriggered := Present(true);
        html := RenderBlock(body);
      } else {
        html := "";
      }
    }

    /**
     * The `switch` helper: sets the two properties, renders the body, renders
     * the inverse when no case set the flag, and deletes both properties.
     */
    method Switch(value: Option<Value>, body: seq<Node>, inverse: seq<Node>) returns (html: string)
      modifies this`switchValue, this`switchTriggered
      ensures (html, State()) == RenderNodeS(SwitchBlock(value, body, inverse), old(State()))
      ensures State() == Bare
      decreases BlockSize(body) + BlockSize(inverse) + 1, 0
    {
      switchValue := Present(value);
      switchTriggered := Present(false);
      html := RenderBlock(body);
      if !IsTriggered(State()) {
        html := RenderBlock(inverse);
      }
      switchValue := Missing;
      switchTriggered := Missing;
    }
  }
}
