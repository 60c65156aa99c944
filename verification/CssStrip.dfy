/** The rewrite: a `color-mix()` declaration takes the place of its fallback, and the reset layer for
    browsers without `@property` goes. */
module CssStrip {
  import opened Basics
  import opened CssLex
  import opened CssParse
  import opened CssSplit

  const COLOR_MIX := "@supports(color:color-mix(inlab,red,red))"

  function Squash(s: string): string {
    if s == "" then "" else (if IsSpace(s[0]) then "" else [s[0]]) + Squash(s[1..])
  }

  /** Where `c` first stands in `s`, or its length. */
  function IndexOf(s: string, c: char): (n: nat)
    ensures n <= |s| && (n < |s| <==> c in s)
  {
    if s == "" then 0 else if s[0] == c then 0 else 1 + IndexOf(s[1..], c)
  }

  /** A declaration's property name. Without a colon the source slices off the last character. */
  function PropertyOf(declaration: string): string {
    var n := IndexOf(declaration, ':');
    LowerCase(Trim(declaration[..if n < |declaration| || n == 0 then n else n - 1]))
  }

  predicate StartsWith(s: string, prefix: string) {
    prefix <= s
  }

  // ----- replaceFallbacks -----

  /** The last declaration of a property, or the number of declarations when there is none. */
  function LastOf(own: seq<string>, name: string): (n: nat)
    ensures n <= |own|
    ensures n < |own| ==> PropertyOf(own[n]) == name
    ensures forall i :: 0 <= i < |own| && (n == |own| || n < i) ==> PropertyOf(own[i]) != name
  {
    if own == [] then 0
    else
      var k := |own| - 1;
      if PropertyOf(own[k]) == name then k
      else if LastOf(own[..k], name) == k then |own|
      else LastOf(own[..k], name)
  }

  /** Each declaration in place of the last one of its property, if every one has such a fallback. */
  function Override(own: seq<string>, ds: seq<string>): Option<seq<string>>
    decreases |ds|
  {
    if ds == [] then Some(own)
    else
      var n := LastOf(own, PropertyOf(ds[0]));
      if n == |own| then None else Override(own[n := ds[0]], ds[1..])
  }

  function Squashed(selectors: seq<string>): set<string> {
    set i | 0 <= i < |selectors| :: Squash(selectors[i])
  }

  /** The selectors that do not move. */
  function Staying(selectors: seq<string>, moved: set<string>): seq<string> {
    if selectors == [] then []
    else (if Squash(selectors[0]) in moved then [] else [selectors[0]]) + Staying(selectors[1..], moved)
  }

  /** The rules that replace `previous`, or nothing unless the block holds one rule whose every
      declaration has a fallback there. */
  function ReplaceFallbacks(previous: Node, supports: seq<Node>): Option<seq<Node>> {
    if !previous.Rule? || StartsWith(previous.prelude, "@") then None
    else if |supports| != 1 || !supports[0].Rule? then None
    else
      var inner := supports[0];
      var own := Override(Parts(previous.body, ';'), Parts(inner.body, ';'));
      if own.None? then None
      else
        var body := Join(own.value, ';');
        var selectors := Parts(previous.prelude, ',');
        var moved := Squashed(Parts(inner.prelude, ','));
        var others := Staying(selectors, moved);
        if |selectors| - |others| != |moved| then None
        else if others == [] then Some([Rule(previous.prelude, body)])
        else Some([Rule(Join(others, ','), previous.body), Rule(inner.prelude, body)])
  }

  // ----- isPropertyReset -----

  predicate IsResetRule(rule: Node) {
    && rule.Rule? && StartsWith(rule.prelude, "*")
    && forall d :: d in Parts(rule.body, ';') ==> StartsWith(d, "--")
  }

  predicate IsResetSupports(node: Node) {
    && node.Group? && StartsWith(node.prelude, "@supports")
    && forall i :: 0 <= i < |node.children| ==> IsResetRule(node.children[i])
  }

  predicate IsPropertyReset(node: Node) {
    && node.Group? && Squash(node.prelude) == "@layerproperties"
    && forall i :: 0 <= i < |node.children| ==> IsResetSupports(node.children[i])
  }

  // ----- strip -----

  /** One turn of the loop: what `out` becomes when `node`, its children stripped, comes next. */
  function Place(out: seq<Node>, node: Node): seq<Node> {
    if !node.Group? then out + [node]
    else
      var replaced :=
        if Squash(node.prelude) == COLOR_MIX && out != []
        then ReplaceFallbacks(out[|out| - 1], node.children)
        else None;
      if replaced.Some? then out[..|out| - 1] + replaced.value
      else if IsPropertyReset(node) then out
      else out + [node]
  }

  function StripNode(node: Node): Node
    decreases node, 0
  {
    if node.Group? then Group(node.prelude, Strip(node.children)) else node
  }

  function StripInto(out: seq<Node>, nodes: seq<Node>): seq<Node>
    decreases nodes, 0
  {
    if nodes == [] then out else StripInto(Place(out, StripNode(nodes[0])), nodes[1..])
  }

  function Strip(nodes: seq<Node>): seq<Node>
    decreases nodes, 1
  {
    StripInto([], nodes)
  }

  /** Removes the legacy polyfills from a stylesheet; none when the stylesheet does not parse. */
  function WithoutLegacyPolyfills(css: string): Option<string> {
    match Parse(css)
    case None => None
    case Some(nodes) => Some(Serialize(Strip(nodes)))
  }
}
