/** What a stylesheet means to one element in one browser: the declaration of each property that wins
    by layer, then specificity, then order (section 6 of CSS Cascading and Inheritance Level 5). */
module CssCascade {
  import opened Basics
  import opened CssLex
  import opened CssParse
  import opened CssSplit
  import opened CssStrip

  /** One element as one browser sees it: which at-rule conditions hold, which selectors match and
      how specific they are, and how the layer named by a path of `@layer` preludes ranks. */
  datatype Viewer = Viewer(
    active: string -> bool,
    matches: string -> bool,
    specificity: string -> int,
    layerRank: seq<string> -> int)

  /** One declaration that applies. */
  datatype Entry = Entry(layer: int, specificity: int, property: string, value: string)

  predicate Below(a: Entry, b: Entry) {
    a.layer < b.layer || (a.layer == b.layer && a.specificity < b.specificity)
  }

  // ----- The declarations that apply, in order -----

  /** A property's name to the browser: any case, except for a custom property. */
  function NameOf(declaration: string): string {
    var name := Trim(declaration[..IndexOf(declaration, ':')]);
    if "--" <= name then name else LowerCase(name)
  }

  function ValueOf(declaration: string): string {
    declaration[IndexOf(declaration, ':')..]
  }

  /** A text without a colon declares nothing. */
  function DeclarationEntries(layer: int, specificity: int, ds: seq<string>): seq<Entry> {
    if ds == [] then []
    else
      (if ':' in ds[0] then [Entry(layer, specificity, NameOf(ds[0]), ValueOf(ds[0]))] else [])
      + DeclarationEntries(layer, specificity, ds[1..])
  }

  function RuleEntries(v: Viewer, layer: int, selectors: seq<string>, ds: seq<string>): seq<Entry> {
    if selectors == [] then []
    else
      (if v.matches(selectors[0]) then DeclarationEntries(layer, v.specificity(selectors[0]), ds) else [])
      + RuleEntries(v, layer, selectors[1..], ds)
  }

  /** The selectors a rule applies to; an at-rule applies to none. */
  function SelectorsOf(prelude: string): seq<string> {
    if StartsWith(prelude, "@") then [] else Parts(prelude, ',')
  }

  function Within(layers: seq<string>, prelude: string): seq<string> {
    if NamedAt(prelude, "layer") then layers + [prelude] else layers
  }

  function NodeEntries(v: Viewer, node: Node, layers: seq<string>): seq<Entry>
    decreases node, 0
  {
    match node
    case Text(_) => []
    case Rule(p, b) => RuleEntries(v, v.layerRank(layers), SelectorsOf(p), Parts(b, ';'))
    case Group(p, children) => if v.active(p) then Entries(v, children, Within(layers, p)) else []
  }

  function Entries(v: Viewer, nodes: seq<Node>, layers: seq<string>): seq<Entry>
    decreases nodes
  {
    if nodes == [] then [] else NodeEntries(v, nodes[0], layers) + Entries(v, nodes[1..], layers)
  }

  // ----- The one that wins -----

  /** The later of two, unless it ranks below the earlier. */
  function Best(a: Option<Entry>, b: Option<Entry>): Option<Entry> {
    if b.None? || (a.Some? && Below(b.value, a.value)) then a else b
  }

  function Winner(es: seq<Entry>, property: string): Option<Entry> {
    if es == [] then None
    else Best(if es[0].property == property then Some(es[0]) else None, Winner(es[1..], property))
  }

  /** Declaration `k` is the last of the highest ranked ones of the property. */
  predicate LastHighest(es: seq<Entry>, k: nat, property: string) {
    && k < |es| && es[k].property == property
    && forall i :: 0 <= i < |es| && es[i].property == property ==>
         !Below(es[k], es[i]) && (k < i ==> Below(es[i], es[k]))
  }

  /** The winner is the last of the highest ranked declarations of the property. */
  lemma {:induction false} WinnerIsLastHighest(es: seq<Entry>, property: string)
    ensures Winner(es, property).None? <==> forall i :: 0 <= i < |es| ==> es[i].property != property
    ensures Winner(es, property).Some? ==>
              exists k: nat :: LastHighest(es, k, property) && es[k] == Winner(es, property).value
  {
    if es != [] {
      var e, tail := es[0], es[1..];
      WinnerIsLastHighest(tail, property);
      assert forall i :: 1 <= i < |es| ==> es[i] == tail[i - 1];
      if Winner(tail, property).Some? {
        var k: nat :| LastHighest(tail, k, property) && tail[k] == Winner(tail, property).value;
        if e.property == property && Below(tail[k], e) {
          FirstIsHighest(es, k, property);
          assert es[0] == Winner(es, property).value;
        } else {
          LaterIsHighest(es, k, property);
          assert es[k + 1] == Winner(es, property).value;
        }
      } else if e.property == property {
        assert LastHighest(es, 0, property);
      }
    }
  }

  lemma FirstIsHighest(es: seq<Entry>, k: nat, property: string)
    requires es != [] && es[0].property == property && LastHighest(es[1..], k, property) && Below(es[1..][k], es[0])
    ensures LastHighest(es, 0, property)
  {
    assert forall i :: 1 <= i < |es| ==> es[i] == es[1..][i - 1];
  }

  lemma LaterIsHighest(es: seq<Entry>, k: nat, property: string)
    requires es != [] && LastHighest(es[1..], k, property)
    requires !(es[0].property == property && Below(es[1..][k], es[0]))
    ensures LastHighest(es, k + 1, property)
  {
    assert forall i :: 1 <= i < |es| ==> es[i] == es[1..][i - 1];
  }

  lemma BestAssociates(a: Option<Entry>, b: Option<Entry>, c: Option<Entry>)
    ensures Best(Best(a, b), c) == Best(a, Best(b, c))
  {
  }

  lemma {:induction false} WinnerCat(xs: seq<Entry>, ys: seq<Entry>, property: string)
    ensures Winner(xs + ys, property) == Best(Winner(xs, property), Winner(ys, property))
  {
    if xs == [] {
      assert xs + ys == ys;
    } else {
      assert (xs + ys)[1..] == xs[1..] + ys;
      WinnerCat(xs[1..], ys, property);
    }
  }

  lemma {:induction false} EntriesCat(v: Viewer, a: seq<Node>, b: seq<Node>, layers: seq<string>)
    ensures Entries(v, a + b, layers) == Entries(v, a, layers) + Entries(v, b, layers)
  {
    hide NodeEntries;
    if a == [] {
      assert a + b == b;
    } else {
      assert (a + b)[1..] == a[1..] + b;
      EntriesCat(v, a[1..], b, layers);
    }
  }

  /** The declaration of `property` that applies, if one does. */
  function Wins(v: Viewer, nodes: seq<Node>, layers: seq<string>, property: string): Option<Entry> {
    Winner(Entries(v, nodes, layers), property)
  }

  lemma WinsCat(v: Viewer, a: seq<Node>, b: seq<Node>, layers: seq<string>, property: string)
    ensures Wins(v, a + b, layers, property) == Best(Wins(v, a, layers, property), Wins(v, b, layers, property))
  {
    EntriesCat(v, a, b, layers);
    WinnerCat(Entries(v, a, layers), Entries(v, b, layers), property);
  }

  // ----- One rule -----

  /** How specific the most specific matching selector is. */
  function Highest(v: Viewer, selectors: seq<string>): Option<int> {
    if selectors == [] then None
    else
      var rest := Highest(v, selectors[1..]);
      var s := v.specificity(selectors[0]);
      if !v.matches(selectors[0]) then rest
      else if rest.Some? && s <= rest.value then rest
      else Some(s)
  }

  /** What the last declaration of a property gives it; names are the browser's. */
  function Says(ds: seq<string>, property: string): Option<string> {
    if ds == [] then None
    else if Says(ds[1..], property).Some? then Says(ds[1..], property)
    else if ':' in ds[0] && NameOf(ds[0]) == property then Some(ValueOf(ds[0]))
    else None
  }

  function Or(a: Option<string>, b: Option<string>): Option<string> {
    if a.Some? then a else b
  }

  lemma {:induction false} SaysCat(a: seq<string>, b: seq<string>, property: string)
    ensures Says(a + b, property) == Or(Says(b, property), Says(a, property))
  {
    hide NameOf; hide ValueOf;
    if a == [] {
      assert a + b == b;
    } else {
      assert (a + b)[1..] == a[1..] + b;
      SaysCat(a[1..], b, property);
    }
  }

  function RuleClaim(layer: int, highest: Option<int>, given: Option<string>, property: string): Option<Entry> {
    if highest.None? || given.None? then None else Some(Entry(layer, highest.value, property, given.value))
  }

  lemma {:induction false} DeclarationsWinner(layer: int, s: int, ds: seq<string>, property: string)
    ensures Winner(DeclarationEntries(layer, s, ds), property)
            == RuleClaim(layer, Some(s), Says(ds, property), property)
  {
    hide NameOf; hide ValueOf;
    if ds != [] {
      DeclarationsWinner(layer, s, ds[1..], property);
      var es := DeclarationEntries(layer, s, ds);
      if ':' in ds[0] { assert es[1..] == DeclarationEntries(layer, s, ds[1..]); }
      else { assert es == DeclarationEntries(layer, s, ds[1..]); }
    }
  }

  /** A rule claims a property with its most specific matching selector and its last declaration. */
  lemma {:induction false} RuleWinner(v: Viewer, layer: int, selectors: seq<string>, ds: seq<string>, property: string)
    ensures Winner(RuleEntries(v, layer, selectors, ds), property)
            == RuleClaim(layer, Highest(v, selectors), Says(ds, property), property)
  {
    hide Says;
    if selectors != [] {
      RuleWinner(v, layer, selectors[1..], ds, property);
      var s := v.specificity(selectors[0]);
      var first := if v.matches(selectors[0]) then DeclarationEntries(layer, s, ds) else [];
      DeclarationsWinner(layer, s, ds, property);
      WinnerCat(first, RuleEntries(v, layer, selectors[1..], ds), property);
    }
  }

  lemma RuleWins(v: Viewer, p: string, b: string, layers: seq<string>, property: string)
    ensures Wins(v, [Rule(p, b)], layers, property)
            == RuleClaim(v.layerRank(layers), Highest(v, SelectorsOf(p)), Says(Parts(b, ';'), property), property)
  {
    hide Parts; hide Highest; hide Says; hide RuleClaim; hide SelectorsOf;
    RuleWinner(v, v.layerRank(layers), SelectorsOf(p), Parts(b, ';'), property);
    OneWins(v, Rule(p, b), layers, property);
  }

  lemma OneWins(v: Viewer, node: Node, layers: seq<string>, property: string)
    ensures Wins(v, [node], layers, property) == Winner(NodeEntries(v, node, layers), property)
  {
    hide NodeEntries;
    assert [node][1..] == [];
    assert Entries(v, [node], layers) == NodeEntries(v, node, layers) + Entries(v, [], layers);
    assert Entries(v, [node], layers) == NodeEntries(v, node, layers);
  }

  // ----- Replacing a fallback -----

  /** The value the last declaration of a property gives it; names are the rewrite's. */
  function Given(ds: seq<string>, property: string): Option<string> {
    var n := LastOf(ds, property);
    if n == |ds| then None else Some(ValueOf(ds[n]))
  }

  lemma {:induction false} GivenTail(ds: seq<string>, property: string)
    requires ds != []
    ensures Given(ds, property) ==
            if Given(ds[1..], property).Some? then Given(ds[1..], property)
            else if PropertyOf(ds[0]) == property then Some(ValueOf(ds[0])) else None
  {
    hide PropertyOf; hide ValueOf;
    var n, m := LastOf(ds, property), LastOf(ds[1..], property);
    assert forall i :: 0 < i < |ds| ==> ds[i] == ds[1..][i - 1];
    if m < |ds[1..]| { assert PropertyOf(ds[m + 1]) == property; }
  }

  lemma NothingGiven(property: string)
    ensures Given([], property) == None
  {
  }

  /** A declaration whose property the rewrite reads as the browser does. */
  predicate WellNamed(d: string) {
    ':' in d && NameOf(d) == PropertyOf(d)
  }

  predicate AllNamed(ds: seq<string>) {
    forall i :: 0 <= i < |ds| ==> WellNamed(ds[i])
  }

  lemma {:induction false} SaysGiven(ds: seq<string>, property: string)
    requires AllNamed(ds)
    ensures Says(ds, property) == Given(ds, property)
  {
    hide PropertyOf; hide NameOf; hide ValueOf; hide Given;
    if ds == [] {
      NothingGiven(property);
    } else {
      SaysGiven(ds[1..], property);
      GivenTail(ds, property);
      assert WellNamed(ds[0]);
    }
  }

  lemma {:induction false} OverrideGives(own: seq<string>, ds: seq<string>, property: string)
    requires Override(own, ds).Some?
    ensures var r := Override(own, ds).value;
            && Given(r, property) == (if Given(ds, property).Some? then Given(ds, property) else Given(own, property))
            && (Given(ds, property).Some? ==> Given(own, property).Some?)
            && |r| == |own|
    decreases |ds|
  {
    hide PropertyOf; hide ValueOf;
    if ds == [] {
      NothingGiven(property);
    } else {
      var n := LastOf(own, PropertyOf(ds[0]));
      var own' := own[n := ds[0]];
      OverrideGives(own', ds[1..], property);
      GivenTail(ds, property);
      UpdateGives(own, n, ds[0], property);
    }
  }

  lemma UpdateGives(own: seq<string>, n: nat, d: string, property: string)
    requires n < |own| && n == LastOf(own, PropertyOf(d))
    ensures Given(own[n := d], property) == if PropertyOf(d) == property then Some(ValueOf(d)) else Given(own, property)
    ensures PropertyOf(d) == property ==> Given(own, property).Some?
  {
    hide PropertyOf; hide ValueOf;
    var own' := own[n := d];
    var k, k' := LastOf(own, property), LastOf(own', property);
    assert forall i :: 0 <= i < |own| && i != n ==> own'[i] == own[i];
    assert PropertyOf(own'[n]) == PropertyOf(own[n]);
    assert forall i :: 0 <= i < |own| ==> PropertyOf(own'[i]) == PropertyOf(own[i]);
    assert k == k';
  }
}
