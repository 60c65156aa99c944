/** One replacement: a rule and the `color-mix()` block after it become one rule or two. It keeps what
    wins, for every element in every browser, exactly when every selector on its own is given the same
    declarations before and after. */
module CssReplace {
  import opened Basics
  import opened CssLex
  import opened CssParse
  import opened CssSplit
  import opened CssStrip
  import opened CssCascade

  // ----- Selectors that mean the same -----

  predicate Alike(v: Viewer, a: string, b: string) {
    v.matches(a) == v.matches(b) && v.specificity(a) == v.specificity(b)
  }

  lemma {:induction false} HighestIs(v: Viewer, selectors: seq<string>)
    ensures var h := Highest(v, selectors);
            && (h.None? <==> forall s :: s in selectors ==> !v.matches(s))
            && (h.Some? ==> exists s :: s in selectors && v.matches(s) && v.specificity(s) == h.value)
            && (h.Some? ==> forall s :: s in selectors && v.matches(s) ==> v.specificity(s) <= h.value)
  {
    if selectors != [] {
      assert selectors == [selectors[0]] + selectors[1..];
      HighestIs(v, selectors[1..]);
    }
  }

  /** The browser takes two of these texts for the same selector when `key` does. */
  predicate Respects(v: Viewer, key: string -> string, texts: seq<string>) {
    forall a, b :: a in texts && b in texts && key(a) == key(b) ==> Alike(v, a, b)
  }

  /** Texts that `key` tells apart the rewrite may take for one, not the other way round. */
  ghost predicate Finer(key: string -> string) {
    forall a, b :: key(a) == key(b) ==> Squash(a) == Squash(b)
  }

  function Keys(selectors: seq<string>, key: string -> string): set<string> {
    set s | s in selectors :: key(s)
  }

  lemma HighestGrows(v: Viewer, key: string -> string, a: seq<string>, b: seq<string>, texts: seq<string>)
    requires Respects(v, key, texts) && Keys(a, key) <= Keys(b, key)
    requires (forall s :: s in a ==> s in texts) && (forall s :: s in b ==> s in texts)
    ensures Highest(v, a).Some? ==> Highest(v, b).Some? && Highest(v, a).value <= Highest(v, b).value
  {
    HighestIs(v, a);
    HighestIs(v, b);
    if Highest(v, a).Some? {
      var s :| s in a && v.matches(s) && v.specificity(s) == Highest(v, a).value;
      assert key(s) in Keys(b, key);
      var t :| t in b && key(t) == key(s);
      assert Alike(v, s, t);
    }
  }

  // ----- What one selector is given -----

  /** The declarations that reach an element matched by the selectors with this key and by no other. */
  function Declared(rules: seq<Node>, key: string -> string, x: string): seq<string> {
    if rules == [] then []
    else
      (if rules[0].Rule? && x in Keys(SelectorsOf(rules[0].prelude), key) then Parts(rules[0].body, ';') else [])
      + Declared(rules[1..], key, x)
  }

  /** Two lists of declarations give every property they name the same value. */
  predicate SameSay(a: seq<string>, b: seq<string>) {
    && (forall d :: d in a ==> Says(a, NameOf(d)) == Says(b, NameOf(d)))
    && (forall d :: d in b ==> Says(a, NameOf(d)) == Says(b, NameOf(d)))
  }

  lemma {:induction false} SaysNamed(ds: seq<string>, property: string)
    ensures Says(ds, property).Some? ==> exists d :: d in ds && ':' in d && NameOf(d) == property
  {
    hide NameOf; hide ValueOf;
    if ds != [] {
      assert ds == [ds[0]] + ds[1..];
      SaysNamed(ds[1..], property);
    }
  }

  lemma SameSayIs(a: seq<string>, b: seq<string>)
    ensures SameSay(a, b) <==> forall property :: Says(a, property) == Says(b, property)
  {
    hide Says; hide NameOf;
    if SameSay(a, b) {
      forall property ensures Says(a, property) == Says(b, property) {
        SaysNamed(a, property);
        SaysNamed(b, property);
      }
    } else {
      var d :| (d in a || d in b) && Says(a, NameOf(d)) != Says(b, NameOf(d));
      var property := NameOf(d);
      assert Says(a, property) != Says(b, property);
    }
  }

  /** Every selector is given the same before and after. */
  predicate SelectorWise(key: string -> string, before: seq<Node>, after: seq<Node>) {
    forall x :: x in KeysOf(before, key) + KeysOf(after, key) ==>
      SameSay(Declared(before, key, x), Declared(after, key, x))
  }

  function KeysOf(rules: seq<Node>, key: string -> string): set<string> {
    if rules == [] then {}
    else (if rules[0].Rule? then Keys(SelectorsOf(rules[0].prelude), key) else {}) + KeysOf(rules[1..], key)
  }

  /** An element that the selectors with one key match, and no others. */
  function Only(key: string -> string, x: string): Viewer {
    Viewer(s => true, s => key(s) == x, s => 0, s => 0)
  }

  lemma OnlyHighest(key: string -> string, x: string, selectors: seq<string>)
    ensures Highest(Only(key, x), selectors) == if x in Keys(selectors, key) then Some(0) else None
  {
    HighestIs(Only(key, x), selectors);
  }

  predicate AllRules(nodes: seq<Node>) {
    forall i :: 0 <= i < |nodes| ==> nodes[i].Rule?
  }

  lemma {:induction false} OnlySees(key: string -> string, x: string, rules: seq<Node>, layers: seq<string>,
                                    property: string)
    requires AllRules(rules)
    ensures Wins(Only(key, x), rules, layers, property)
            == RuleClaim(0, Some(0), Says(Declared(rules, key, x), property), property)
  {
    hide Parts; hide Says; hide SelectorsOf; hide Keys; hide Wins; hide Only;
    var v := Only(key, x);
    if rules == [] {
      OnlyNothing(v, layers, property);
    } else {
      var first, rest := rules[0], rules[1..];
      var mine := if x in Keys(SelectorsOf(first.prelude), key) then Parts(first.body, ';') else [];
      OnlySees(key, x, rest, layers, property);
      assert rules == [first] + rest;
      WinsCat(v, [first], rest, layers, property);
      RuleWins(v, first.prelude, first.body, layers, property);
      OnlyHighest(key, x, SelectorsOf(first.prelude));
      SaysCat(mine, Declared(rest, key, x), property);
      OnlyNothing(v, layers, property);
      OnlyRank(key, x, layers);
    }
  }

  lemma OnlyRank(key: string -> string, x: string, layers: seq<string>)
    ensures Only(key, x).layerRank(layers) == 0
  {
  }

  lemma OnlyNothing(v: Viewer, layers: seq<string>, property: string)
    ensures Wins(v, [], layers, property) == None && Says([], property) == None
  {
  }

  // ----- The rules a replacement writes -----

  function Others(p: string, q: string): seq<string> {
    Staying(Parts(p, ','), Squashed(Parts(q, ',')))
  }

  function Mixed(b: string, c: string): Option<seq<string>> {
    Override(Parts(b, ';'), Parts(c, ';'))
  }

  /** The selectors left behind, written as a list, are read as they are. */
  predicate Rereads(p: string, q: string) {
    Parts(Join(Others(p, q), ','), ',') == Others(p, q)
  }

  lemma ReplacedIs(p: string, b: string, q: string, c: string)
    requires ReplaceFallbacks(Rule(p, b), [Rule(q, c)]).Some?
    ensures !StartsWith(p, "@") && Mixed(b, c).Some?
    ensures var body := Join(Mixed(b, c).value, ';');
            ReplaceFallbacks(Rule(p, b), [Rule(q, c)]).value ==
            if Others(p, q) == [] then [Rule(p, body)] else [Rule(Join(Others(p, q), ','), b), Rule(q, body)]
    ensures |Parts(p, ',')| - |Others(p, q)| == |Squashed(Parts(q, ','))|
  {
    hide Parts; hide Join; hide Override; hide Staying; hide Squash;
  }

  lemma {:induction false} StayingIs(selectors: seq<string>, moved: set<string>)
    ensures forall s :: s in Staying(selectors, moved) <==> s in selectors && Squash(s) !in moved
  {
    hide Squash;
    if selectors != [] {
      StayingIs(selectors[1..], moved);
      assert selectors == [selectors[0]] + selectors[1..];
    }
  }

  /** The selectors the first rule is written for, which the moving ones are not among. */
  lemma StayingApart(key: string -> string, p: string, q: string)
    requires Finer(key) && Rereads(p, q)
    ensures var stay := SelectorsOf(Join(Others(p, q), ','));
            && (forall s :: s in stay ==> s in Parts(p, ','))
            && Keys(stay, key) !! Keys(SelectorsOf(q), key)
  {
    hide Parts; hide Join; hide Staying; hide Squash;
    var selectors, moved := Parts(p, ','), Squashed(Parts(q, ','));
    StayingIs(selectors, moved);
    var stay := SelectorsOf(Join(Others(p, q), ','));
    forall x | x in Keys(stay, key) ensures x !in Keys(SelectorsOf(q), key) {
      var s :| s in stay && key(s) == x;
      assert Squash(s) !in moved;
      forall t | t in SelectorsOf(q) ensures key(t) != x {
        SquashedHas(Parts(q, ','), t);
      }
    }
  }

  lemma SquashedHas(selectors: seq<string>, t: string)
    requires t in selectors
    ensures Squash(t) in Squashed(selectors)
  {
    var i :| 0 <= i < |selectors| && selectors[i] == t;
  }

  // ----- From single selectors to all elements -----

  /** The value that reaches a selector: the later list's, if it applies and has one. */
  function Reaches(later: bool, laterValue: Option<string>, earlier: bool,
                   earlierValue: Option<string>): Option<string> {
    Or(if later then laterValue else None, if earlier then earlierValue else None)
  }

  lemma NoneStay(v: Viewer, key: string -> string, all: seq<string>, moving: seq<string>,
                 layer: int, own: Option<string>, ds: Option<string>, mixed: Option<string>, property: string)
    requires Respects(v, key, all + moving)
    requires forall x :: x in Keys(all, key) + Keys(moving, key) ==>
               Reaches(x in Keys(moving, key), ds, x in Keys(all, key), own)
               == if x in Keys(all, key) then mixed else None
    ensures Best(RuleClaim(layer, Highest(v, all), own, property), RuleClaim(layer, Highest(v, moving), ds, property))
            == RuleClaim(layer, Highest(v, all), mixed, property)
  {
    hide Highest; hide Alike; hide Keys;
    if moving == [] {
      NoneHighest(v, key);
      KeysEmpty(all, key);
    } else {
      KeysEmpty(all, key);
      KeysEmpty(moving, key);
      if ds.Some? {
        assert Keys(moving, key) <= Keys(all, key);
        HighestGrows(v, key, moving, all, all + moving);
        if own != ds {
          assert Keys(all, key) <= Keys(moving, key);
          HighestGrows(v, key, all, moving, all + moving);
        }
      }
      if all == [] { NoneHighest(v, key); }
    }
  }

  lemma NoneHighest(v: Viewer, key: string -> string)
    ensures Highest(v, []) == None && Keys([], key) == {}
  {
  }

  lemma KeysEmpty(selectors: seq<string>, key: string -> string)
    ensures selectors == [] ==> Keys(selectors, key) == {}
    ensures selectors != [] ==> exists x :: x in Keys(selectors, key)
  {
    if selectors != [] { assert key(selectors[0]) in Keys(selectors, key); }
  }

  function Higher(a: Option<int>, b: Option<int>): Option<int> {
    if a.None? then b else if b.None? then a else if a.value < b.value then b else a
  }

  lemma {:induction false} HighestCat(v: Viewer, a: seq<string>, b: seq<string>)
    ensures Highest(v, a + b) == Higher(Highest(v, a), Highest(v, b))
  {
    if a == [] {
      assert a + b == b;
    } else {
      assert (a + b)[1..] == a[1..] + b;
      HighestCat(v, a[1..], b);
    }
  }

  lemma KeysCat(a: seq<string>, b: seq<string>, key: string -> string)
    ensures Keys(a + b, key) == Keys(a, key) + Keys(b, key)
  {
  }

  lemma SomeStay(v: Viewer, key: string -> string, all: seq<string>, moving: seq<string>, stay: seq<string>,
                 layer: int, own: Option<string>, ds: Option<string>, mixed: Option<string>, property: string)
    requires Respects(v, key, all + moving + stay)
    requires forall x :: x in Keys(all, key) + Keys(moving, key) + Keys(stay, key) ==>
               Reaches(x in Keys(moving, key), ds, x in Keys(all, key), own)
               == Reaches(x in Keys(moving, key), mixed, x in Keys(stay, key), own)
    ensures Best(RuleClaim(layer, Highest(v, all), own, property), RuleClaim(layer, Highest(v, moving), ds, property))
            == Best(RuleClaim(layer, Highest(v, stay), own, property),
                    RuleClaim(layer, Highest(v, moving), mixed, property))
  {
    hide Highest; hide Alike; hide Keys; hide Best; hide RuleClaim; hide Higher;
    var texts := all + moving + stay;
    HighestCat(v, stay, moving);
    HighestCat(v, all, moving);
    KeysCat(stay, moving, key);
    KeysCat(all, moving, key);
    KeysEmpty(moving, key);
    if moving == [] { NoneHighest(v, key); }
    if own.Some? {
      assert Keys(all, key) <= Keys(stay + moving, key) && Keys(stay, key) <= Keys(all + moving, key);
      HighestGrows(v, key, all, stay + moving, texts);
      HighestGrows(v, key, stay, all + moving, texts);
      if Keys(moving, key) <= Keys(stay, key) { HighestGrows(v, key, moving, stay, texts); }
      if Keys(moving, key) <= Keys(all, key) { HighestGrows(v, key, moving, all, texts); }
      if Keys(all, key) == Keys(stay, key) {
        HighestGrows(v, key, all, stay, texts);
        HighestGrows(v, key, stay, all, texts);
      }
    }
    SameClaims(Highest(v, all), Highest(v, moving), Highest(v, stay), layer, own, ds, mixed, property);
  }

  predicate NotAbove(a: Option<int>, b: Option<int>) {
    a.Some? ==> b.Some? && a.value <= b.value
  }

  /** What of the claims depends on how specific the matching selectors are. */
  lemma SameClaims(all: Option<int>, moving: Option<int>, stay: Option<int>,
                   layer: int, own: Option<string>, ds: Option<string>, mixed: Option<string>, property: string)
    requires own.None? ==> moving.None? || ds == mixed
    requires own.Some? ==> NotAbove(all, Higher(stay, moving)) && NotAbove(stay, Higher(all, moving))
    requires own.Some? ==>
               || moving.None?
               || (ds.Some? && mixed == ds)
               || (ds == own && mixed.None? && NotAbove(moving, stay))
               || (ds.None? && mixed.None? && NotAbove(all, stay) && NotAbove(stay, all))
               || (ds.None? && mixed == own && NotAbove(moving, all))
    ensures Best(RuleClaim(layer, all, own, property), RuleClaim(layer, moving, ds, property))
            == Best(RuleClaim(layer, stay, own, property), RuleClaim(layer, moving, mixed, property))
  {
  }

  lemma KeysWithin(key: string -> string, a: seq<string>, b: seq<string>)
    requires forall s :: s in a ==> s in b
    ensures Keys(a, key) <= Keys(b, key)
  {
  }

  // ----- The exact condition -----

  lemma DeclaredOne(key: string -> string, p: string, b: string, x: string, property: string)
    ensures Says(Declared([Rule(p, b)], key, x), property)
            == if x in Keys(SelectorsOf(p), key) then Says(Parts(b, ';'), property) else None
  {
    hide Parts; hide SelectorsOf; hide Keys;
    assert [Rule(p, b)][1..] == [];
    assert Parts(b, ';') + [] == Parts(b, ';');
  }

  lemma DeclaredTwo(key: string -> string, p: string, b: string, q: string, c: string, x: string, property: string)
    ensures Says(Declared([Rule(p, b), Rule(q, c)], key, x), property)
            == Reaches(x in Keys(SelectorsOf(q), key), Says(Parts(c, ';'), property),
                       x in Keys(SelectorsOf(p), key), Says(Parts(b, ';'), property))
  {
    hide Parts; hide SelectorsOf; hide Keys; hide Says;
    var two := [Rule(p, b), Rule(q, c)];
    assert two[1..] == [Rule(q, c)];
    DeclaredOne(key, q, c, x, property);
    SaysCat(if x in Keys(SelectorsOf(p), key) then Parts(b, ';') else [], Declared([Rule(q, c)], key, x), property);
    SaysNothing(property);
  }

  lemma SaysNothing(property: string)
    ensures Says([], property) == None
  {
  }

  lemma TwoWins(v: Viewer, p: string, b: string, q: string, c: string, layers: seq<string>, property: string)
    ensures Wins(v, [Rule(p, b), Rule(q, c)], layers, property)
            == Best(RuleClaim(v.layerRank(layers), Highest(v, SelectorsOf(p)), Says(Parts(b, ';'), property), property),
                    RuleClaim(v.layerRank(layers), Highest(v, SelectorsOf(q)), Says(Parts(c, ';'), property), property))
  {
    hide Wins; hide Parts; hide SelectorsOf; hide Says; hide Highest;
    assert [Rule(p, b), Rule(q, c)] == [Rule(p, b)] + [Rule(q, c)];
    WinsCat(v, [Rule(p, b)], [Rule(q, c)], layers, property);
    RuleWins(v, p, b, layers, property);
    RuleWins(v, q, c, layers, property);
  }

  /** What replaces a rule and the block after it wins what they did, if every selector keeps its own. */
  lemma ReplaceKeeps(v: Viewer, key: string -> string, p: string, b: string, q: string, c: string,
                     layers: seq<string>, property: string)
    requires ReplaceFallbacks(Rule(p, b), [Rule(q, c)]).Some?
    requires var before, after := [Rule(p, b), Rule(q, c)], ReplaceFallbacks(Rule(p, b), [Rule(q, c)]).value;
             Respects(v, key, TextsOf(before) + TextsOf(after)) && SelectorWise(key, before, after)
    ensures Wins(v, ReplaceFallbacks(Rule(p, b), [Rule(q, c)]).value, layers, property)
            == Wins(v, [Rule(p, b), Rule(q, c)], layers, property)
  {
    hide Parts; hide Join; hide Wins; hide Says; hide Highest; hide ReplaceFallbacks; hide Declared; hide SameSay;
    hide Others; hide Mixed; hide Respects; hide Keys; hide Best; hide RuleClaim; hide Reaches; hide KeysOf;
    hide TextsOf; hide SelectorsOf;
    ReplacedIs(p, b, q, c);
    var before, after := [Rule(p, b), Rule(q, c)], ReplaceFallbacks(Rule(p, b), [Rule(q, c)]).value;
    var body := Join(Mixed(b, c).value, ';');
    var layer, own, ds := v.layerRank(layers), Says(Parts(b, ';'), property), Says(Parts(c, ';'), property);
    var mixed := Says(Parts(body, ';'), property);
    var all, moving := SelectorsOf(p), SelectorsOf(q);
    TwoWins(v, p, b, q, c, layers, property);
    KeysOfTwo(key, p, b, q, c);
    TextsOfTwo(p, b, q, c);
    forall x | x in KeysOf(before, key) + KeysOf(after, key)
      ensures Says(Declared(after, key, x), property) == Reaches(x in Keys(moving, key), ds, x in Keys(all, key), own)
    {
      SameSayIs(Declared(before, key, x), Declared(after, key, x));
      DeclaredTwo(key, p, b, q, c, x, property);
    }
    if Others(p, q) == [] {
      forall x { DeclaredOne(key, p, body, x, property); }
      RespectsFewer(v, key, TextsOf(before) + TextsOf(after), all + moving);
      NoneStay(v, key, all, moving, layer, own, ds, mixed, property);
      RuleWins(v, p, body, layers, property);
    } else {
      var r := Join(Others(p, q), ',');
      KeysOfTwo(key, r, b, q, body);
      TextsOfTwo(r, b, q, body);
      forall x { DeclaredTwo(key, r, b, q, body, x, property); }
      RespectsFewer(v, key, TextsOf(before) + TextsOf(after), all + moving + SelectorsOf(r));
      SomeStay(v, key, all, moving, SelectorsOf(r), layer, own, ds, mixed, property);
      TwoWins(v, r, b, q, body, layers, property);
    }
  }

  lemma RespectsFewer(v: Viewer, key: string -> string, texts: seq<string>, fewer: seq<string>)
    requires Respects(v, key, texts) && forall s :: s in fewer ==> s in texts
    ensures Respects(v, key, fewer)
  {
    hide Alike;
  }

  lemma KeysOfTwo(key: string -> string, p: string, b: string, q: string, c: string)
    ensures KeysOf([Rule(p, b), Rule(q, c)], key) == Keys(SelectorsOf(p), key) + Keys(SelectorsOf(q), key)
  {
    hide SelectorsOf; hide Keys;
    var two := [Rule(p, b), Rule(q, c)];
    assert two[1..] == [Rule(q, c)] && two[1..][1..] == [];
    assert KeysOf(two[1..], key) == Keys(SelectorsOf(q), key) + KeysOf([], key);
  }

  /** Everything that wins for anyone who respects `key` wins after the replacement too. */
  ghost predicate KeepsAll(key: string -> string, before: seq<Node>, after: seq<Node>) {
    forall v: Viewer, layers: seq<string>, property: string :: Respects(v, key, TextsOf(before) + TextsOf(after)) ==>
      Wins(v, after, layers, property) == Wins(v, before, layers, property)
  }

  function TextsOf(rules: seq<Node>): seq<string> {
    if rules == [] then []
    else (if rules[0].Rule? then SelectorsOf(rules[0].prelude) else []) + TextsOf(rules[1..])
  }

  lemma TextsOfTwo(p: string, b: string, q: string, c: string)
    ensures TextsOf([Rule(p, b), Rule(q, c)]) == SelectorsOf(p) + SelectorsOf(q)
  {
    hide SelectorsOf;
    var two := [Rule(p, b), Rule(q, c)];
    assert two[1..] == [Rule(q, c)] && two[1..][1..] == [];
    assert TextsOf(two[1..]) == SelectorsOf(q) + TextsOf([]);
  }

  /** A replacement keeps everything that wins, in every browser that takes the texts `key` takes for
      one selector for one, if and only if every selector on its own is given the same as before. */
  lemma ReplaceExact(key: string -> string, p: string, b: string, q: string, c: string)
    requires ReplaceFallbacks(Rule(p, b), [Rule(q, c)]).Some?
    ensures var before, after := [Rule(p, b), Rule(q, c)], ReplaceFallbacks(Rule(p, b), [Rule(q, c)]).value;
            KeepsAll(key, before, after) <==> SelectorWise(key, before, after)
  {
    hide Parts; hide Join; hide Wins; hide ReplaceFallbacks; hide Declared; hide Says; hide Others; hide Mixed;
    hide Respects; hide KeysOf; hide SameSay; hide TextsOf;
    var before, after := [Rule(p, b), Rule(q, c)], ReplaceFallbacks(Rule(p, b), [Rule(q, c)]).value;
    if SelectorWise(key, before, after) {
      forall v: Viewer, layers: seq<string>, property: string | Respects(v, key, TextsOf(before) + TextsOf(after))
        ensures Wins(v, after, layers, property) == Wins(v, before, layers, property)
      {
        ReplaceKeeps(v, key, p, b, q, c, layers, property);
      }
    }
    if KeepsAll(key, before, after) {
      ReplacedIs(p, b, q, c);
      forall x | x in KeysOf(before, key) + KeysOf(after, key)
        ensures SameSay(Declared(before, key, x), Declared(after, key, x))
      {
        OnlyTells(key, x, before, after);
      }
    }
  }

  lemma OnlyTells(key: string -> string, x: string, before: seq<Node>, after: seq<Node>)
    requires AllRules(before) && AllRules(after) && KeepsAll(key, before, after)
    ensures SameSay(Declared(before, key, x), Declared(after, key, x))
  {
    hide Wins; hide Declared; hide Says; hide SameSay;
    var v := Only(key, x);
    assert Respects(v, key, TextsOf(before) + TextsOf(after));
    forall property ensures Says(Declared(before, key, x), property) == Says(Declared(after, key, x), property) {
      OnlySees(key, x, before, [], property);
      OnlySees(key, x, after, [], property);
      assert Wins(v, after, [], property) == Wins(v, before, [], property);
    }
    SameSayIs(Declared(before, key, x), Declared(after, key, x));
  }

  // ----- The condition on selectors and declarations -----

  /** The block gives every property that the rule gives. */
  predicate NamesAll(own: seq<string>, ds: seq<string>) {
    forall d :: d in own ==> Says(ds, NameOf(d)).Some?
  }

  /** The rule gives what the block gives already. */
  predicate Agrees(own: seq<string>, ds: seq<string>) {
    forall d :: d in ds ==> Says(own, NameOf(d)) == Says(ds, NameOf(d))
  }

  lemma {:induction false} SaysMember(ds: seq<string>, d: string)
    requires d in ds && ':' in d
    ensures Says(ds, NameOf(d)).Some?
  {
    hide NameOf; hide ValueOf;
    if d != ds[0] || d in ds[1..] { SaysMember(ds[1..], d); }
  }

  lemma {:induction false} SayNothing(ds: seq<string>)
    requires AllNamed(ds)
    ensures ds == [] <==> forall property :: Says(ds, property).None?
  {
    hide NameOf; hide ValueOf; hide PropertyOf;
    if ds == [] {
      forall property ensures Says(ds, property).None? { SaysNothing(property); }
    } else {
      assert WellNamed(ds[0]);
      var property := NameOf(ds[0]);
      SaysMember(ds, ds[0]);
      assert Says(ds, property).Some?;
    }
  }

  lemma NamesAllIs(own: seq<string>, ds: seq<string>)
    requires AllNamed(own)
    ensures NamesAll(own, ds) <==> forall property :: Says(own, property).Some? ==> Says(ds, property).Some?
  {
    hide Says; hide NameOf; hide ValueOf; hide PropertyOf;
    if NamesAll(own, ds) {
      forall property | Says(own, property).Some? ensures Says(ds, property).Some? { SaysNamed(own, property); }
    } else {
      var d :| d in own && Says(ds, NameOf(d)).None?;
      assert WellNamed(d);
      SaysMember(own, d);
      var property := NameOf(d);
      assert Says(own, property).Some? && Says(ds, property).None?;
    }
  }

  lemma AgreesIs(own: seq<string>, ds: seq<string>)
    requires AllNamed(ds)
    ensures Agrees(own, ds)
            <==> forall property :: Says(ds, property).Some? ==> Says(own, property) == Says(ds, property)
  {
    hide Says; hide NameOf; hide ValueOf; hide PropertyOf;
    if Agrees(own, ds) {
      forall property | Says(ds, property).Some? ensures Says(own, property) == Says(ds, property) {
        SaysNamed(ds, property);
      }
    } else {
      var d :| d in ds && Says(own, NameOf(d)) != Says(ds, NameOf(d));
      assert WellNamed(d);
      SaysMember(ds, d);
      var property := NameOf(d);
      assert Says(ds, property).Some? && Says(own, property) != Says(ds, property);
    }
  }

  lemma {:induction false} OverrideFrom(own: seq<string>, ds: seq<string>)
    requires Override(own, ds).Some?
    ensures forall d :: d in Override(own, ds).value ==> d in own || d in ds
    decreases |ds|
  {
    hide PropertyOf;
    if ds != [] {
      var n := LastOf(own, PropertyOf(ds[0]));
      OverrideFrom(own[n := ds[0]], ds[1..]);
      assert forall x :: x in own[n := ds[0]] ==> x in own || x == ds[0];
      assert forall x :: x in ds[1..] ==> x in ds;
    }
  }

  lemma MixedSays(own: seq<string>, ds: seq<string>, property: string)
    requires Override(own, ds).Some? && AllNamed(own) && AllNamed(ds)
    ensures Says(Override(own, ds).value, property) == Or(Says(ds, property), Says(own, property))
    ensures Says(ds, property).Some? ==> Says(own, property).Some?
  {
    hide Override; hide Says; hide Given; hide WellNamed;
    OverrideFrom(own, ds);
    var mixed := Override(own, ds).value;
    forall i | 0 <= i < |mixed| ensures WellNamed(mixed[i]) { assert mixed[i] in own || mixed[i] in ds; }
    SaysGiven(own, property);
    SaysGiven(ds, property);
    SaysGiven(mixed, property);
    OverrideGives(own, ds, property);
  }

  /** A rule and a block whose lists can be written and read again, with names read alike. */
  predicate WellShaped(p: string, b: string, q: string, c: string) {
    && AllNamed(Parts(b, ';')) && AllNamed(Parts(c, ';')) && !StartsWith(q, "@")
    && Mixed(b, c).Some? && Parts(Join(Mixed(b, c).value, ';'), ';') == Mixed(b, c).value && Rereads(p, q)
    && (Others(p, q) != [] ==> !StartsWith(Others(p, q)[0], "@"))
  }

  /** When a replacement keeps everything: on the selectors of the rule, those of the block, and the
      declarations of both. */
  predicate Kept(key: string -> string, p: string, b: string, q: string, c: string) {
    var all, moving, stay := Keys(Parts(p, ','), key), Keys(Parts(q, ','), key), Keys(Others(p, q), key);
    var own, ds := Parts(b, ';'), Parts(c, ';');
    if Others(p, q) == [] then (moving <= all || ds == []) && (all <= moving || Agrees(own, ds))
    else (moving <= all || NamesAll(own, ds)) && (all <= stay + moving || own == [])
  }

  lemma NoneStayExact(key: string -> string, p: string, b: string, q: string, c: string, x: string)
    requires WellShaped(p, b, q, c) && !StartsWith(p, "@") && Others(p, q) == []
    ensures var all, moving := Keys(Parts(p, ','), key), Keys(Parts(q, ','), key);
            var own, ds := Parts(b, ';'), Parts(c, ';');
            SameSay(Declared([Rule(p, b), Rule(q, c)], key, x),
                    Declared([Rule(p, Join(Mixed(b, c).value, ';'))], key, x))
            <==> (x in moving && x !in all ==> ds == []) && (x in all && x !in moving ==> Agrees(own, ds))
  {
    hide Parts; hide Join; hide Says; hide Keys; hide Override; hide Declared; hide SameSay; hide Agrees;
    hide AllNamed; hide Others; hide Staying;
    var own, ds, body := Parts(b, ';'), Parts(c, ';'), Join(Mixed(b, c).value, ';');
    SayNothing(ds);
    AgreesIs(own, ds);
    var before, after := Declared([Rule(p, b), Rule(q, c)], key, x), Declared([Rule(p, body)], key, x);
    forall property {:trigger Says(own, property)} {:trigger Says(ds, property)} {:trigger Says(before, property)}
      ensures Says(before, property)
              == Reaches(x in Keys(Parts(q, ','), key), Says(ds, property), x in Keys(Parts(p, ','), key),
                         Says(own, property))
      ensures Says(after, property)
              == if x in Keys(Parts(p, ','), key) then Or(Says(ds, property), Says(own, property)) else None
    {
      DeclaredTwo(key, p, b, q, c, x, property);
      DeclaredOne(key, p, body, x, property);
      MixedSays(own, ds, property);
    }
    SameSayIs(before, after);
    var inAll, inMoving := x in Keys(Parts(p, ','), key), x in Keys(Parts(q, ','), key);
    if (inMoving && !inAll ==> ds == []) && (inAll && !inMoving ==> Agrees(own, ds)) {
      forall property ensures Says(before, property) == Says(after, property) {
        assert ds == [] ==> Says(ds, property).None?;
        assert Agrees(own, ds) && Says(ds, property).Some? ==> Says(own, property) == Says(ds, property);
      }
    }
    if inMoving && !inAll && ds != [] {
      var property :| Says(ds, property).Some?;
      assert Says(before, property) != Says(after, property);
    }
    if inAll && !inMoving && !Agrees(own, ds) {
      var property :| Says(ds, property).Some? && Says(own, property) != Says(ds, property);
      assert Says(before, property) != Says(after, property);
    }
  }

  lemma SomeStayExact(key: string -> string, p: string, b: string, q: string, c: string, x: string)
    requires Finer(key) && WellShaped(p, b, q, c) && !StartsWith(p, "@") && Others(p, q) != []
    ensures var all, moving, stay := Keys(Parts(p, ','), key), Keys(Parts(q, ','), key), Keys(Others(p, q), key);
            var own, ds := Parts(b, ';'), Parts(c, ';');
            SameSay(Declared([Rule(p, b), Rule(q, c)], key, x),
                    Declared([Rule(Join(Others(p, q), ','), b), Rule(q, Join(Mixed(b, c).value, ';'))], key, x))
            <==> && (x in moving && x !in all ==> NamesAll(own, ds))
                 && (x in all && x !in moving && x !in stay ==> own == [])
  {
    hide Parts; hide Join; hide Says; hide Keys; hide Override; hide Declared; hide SameSay; hide NamesAll;
    hide AllNamed; hide Others; hide Staying; hide Finer; hide Rereads;
    var own, ds, body := Parts(b, ';'), Parts(c, ';'), Join(Mixed(b, c).value, ';');
    var r := Join(Others(p, q), ',');
    OthersRead(p, q);
    StayingApart(key, p, q);
    KeysWithin(key, Others(p, q), Parts(p, ','));
    SayNothing(own);
    NamesAllIs(own, ds);
    var before, after := Declared([Rule(p, b), Rule(q, c)], key, x), Declared([Rule(r, b), Rule(q, body)], key, x);
    forall property {:trigger Says(own, property)} {:trigger Says(ds, property)} {:trigger Says(before, property)}
      ensures Says(before, property)
              == Reaches(x in Keys(Parts(q, ','), key), Says(ds, property), x in Keys(Parts(p, ','), key),
                         Says(own, property))
      ensures Says(after, property)
              == Reaches(x in Keys(Parts(q, ','), key), Or(Says(ds, property), Says(own, property)),
                         x in Keys(Others(p, q), key), Says(own, property))
    {
      DeclaredTwo(key, p, b, q, c, x, property);
      DeclaredTwo(key, r, b, q, body, x, property);
      MixedSays(own, ds, property);
    }
    SameSayIs(before, after);
    var inAll, inMoving := x in Keys(Parts(p, ','), key), x in Keys(Parts(q, ','), key);
    if (inMoving && !inAll ==> NamesAll(own, ds))
       && (inAll && !inMoving && x !in Keys(Others(p, q), key) ==> own == []) {
      forall property ensures Says(before, property) == Says(after, property) {
        assert own == [] ==> Says(own, property).None?;
        assert NamesAll(own, ds) && Says(own, property).Some? ==> Says(ds, property).Some?;
      }
    }
    if inMoving && !inAll && !NamesAll(own, ds) {
      var property :| Says(own, property).Some? && Says(ds, property).None?;
      assert Says(before, property) != Says(after, property);
    }
    if inAll && !inMoving && x !in Keys(Others(p, q), key) && own != [] {
      var property :| Says(own, property).Some?;
      assert Says(before, property) != Says(after, property);
    }
  }

  lemma OthersRead(p: string, q: string)
    requires Rereads(p, q) && Others(p, q) != [] && !StartsWith(Others(p, q)[0], "@")
    ensures SelectorsOf(Join(Others(p, q), ',')) == Others(p, q)
  {
    hide Parts; hide Staying; hide Squash;
    var others := Others(p, q);
    StayingIs(Parts(p, ','), Squashed(Parts(q, ',')));
    assert others[0] in others;
    PartsNotEmpty(p, ',');
    JoinStart(others, ',');
  }

  lemma PartsNotEmpty(text: string, sep: char)
    ensures forall x :: x in Parts(text, sep) ==> x != ""
  {
    hide Lex; hide Runs;
    TextsNotEmpty(Runs(Lex(text), sep, 0));
  }

  lemma {:induction false} TextsNotEmpty(runs: seq<seq<Lexeme>>)
    ensures forall x :: x in Texts(runs) ==> x != ""
  {
    hide Trim; hide Show;
    if runs != [] { TextsNotEmpty(runs[1..]); }
  }

  lemma JoinStart(parts: seq<string>, sep: char)
    requires parts != [] && parts[0] != ""
    ensures Join(parts, sep) != "" && Join(parts, sep)[0] == parts[0][0]
  {
  }

  /** The exact condition for a well-shaped replacement, for any notion of which texts are one selector:
      a selector of the block that the rule lacks does no harm only if no declaration tells the
      difference, and neither does one of the rule that the block spells otherwise. */
  lemma KeptExact(key: string -> string, p: string, b: string, q: string, c: string)
    requires ReplaceFallbacks(Rule(p, b), [Rule(q, c)]).Some? && WellShaped(p, b, q, c) && Finer(key)
    ensures KeepsAll(key, [Rule(p, b), Rule(q, c)], ReplaceFallbacks(Rule(p, b), [Rule(q, c)]).value)
            <==> Kept(key, p, b, q, c)
  {
    hide Parts; hide Join; hide ReplaceFallbacks; hide Declared; hide SameSay; hide Keys; hide KeepsAll; hide Finer;
    hide NamesAll; hide Agrees; hide AllNamed; hide Others; hide Mixed; hide Respects; hide KeysOf;
    ReplacedIs(p, b, q, c);
    ReplaceExact(key, p, b, q, c);
    KeysOfTwo(key, p, b, q, c);
    var all, moving := Keys(Parts(p, ','), key), Keys(Parts(q, ','), key);
    if Others(p, q) == [] {
      forall x { NoneStayExact(key, p, b, q, c, x); }
    } else {
      forall x { SomeStayExact(key, p, b, q, c, x); }
    }
  }

  // ----- The rewrite's own notion: white space does not count -----

  lemma SquashKeys(selectors: seq<string>)
    ensures Keys(selectors, Squash) == Squashed(selectors)
  {
    hide Squash;
    forall s | s in selectors ensures Squash(s) in Squashed(selectors) { SquashedHas(selectors, s); }
  }

  lemma OthersSquashed(p: string, q: string)
    ensures Squashed(Parts(p, ',')) <= Squashed(Others(p, q)) + Squashed(Parts(q, ','))
    ensures Others(p, q) == [] ==> Squashed(Parts(p, ',')) <= Squashed(Parts(q, ','))
  {
    hide Squash; hide Parts; hide Staying;
    var selectors, moved := Parts(p, ','), Squashed(Parts(q, ','));
    StayingIs(selectors, moved);
    forall x | x in Squashed(selectors) ensures x in Squashed(Others(p, q)) + moved {
      var i :| 0 <= i < |selectors| && Squash(selectors[i]) == x;
      if x !in moved { SquashedHas(Others(p, q), selectors[i]); }
    }
  }

  /** To browsers for which white space in these selectors does not count, a well-shaped replacement
      keeps everything if and only if the rule has every selector of the block, or no declaration
      tells the difference. */
  lemma SquashExact(p: string, b: string, q: string, c: string)
    requires ReplaceFallbacks(Rule(p, b), [Rule(q, c)]).Some? && WellShaped(p, b, q, c)
    ensures KeepsAll(Squash, [Rule(p, b), Rule(q, c)], ReplaceFallbacks(Rule(p, b), [Rule(q, c)]).value)
            <==> || Squashed(Parts(q, ',')) <= Squashed(Parts(p, ','))
                 || if Others(p, q) == [] then Parts(c, ';') == [] else NamesAll(Parts(b, ';'), Parts(c, ';'))
  {
    hide Squash; hide Parts; hide Others; hide ReplaceFallbacks; hide KeepsAll; hide WellShaped; hide Agrees;
    hide NamesAll; hide Keys; hide Squashed;
    KeptExact(Squash, p, b, q, c);
    SquashKeys(Parts(p, ','));
    SquashKeys(Parts(q, ','));
    SquashKeys(Others(p, q));
    OthersSquashed(p, q);
  }

  /** To all browsers: the same, with selectors compared as they are written. */
  lemma TextExact(p: string, b: string, q: string, c: string)
    requires ReplaceFallbacks(Rule(p, b), [Rule(q, c)]).Some? && WellShaped(p, b, q, c)
    ensures var before, after := [Rule(p, b), Rule(q, c)], ReplaceFallbacks(Rule(p, b), [Rule(q, c)]).value;
            var all, moving := set s | s in Parts(p, ','), set s | s in Parts(q, ',');
            var own, ds := Parts(b, ';'), Parts(c, ';');
            (forall v: Viewer, layers: seq<string>, property: string ::
               Wins(v, after, layers, property) == Wins(v, before, layers, property))
            <==> if Others(p, q) == []
                 then (moving <= all || ds == []) && (all <= moving || Agrees(own, ds))
                 else (moving <= all || NamesAll(own, ds)) && (all <= (set s | s in Others(p, q)) + moving || own == [])
  {
    hide Parts; hide Others; hide ReplaceFallbacks; hide WellShaped; hide Agrees; hide NamesAll; hide Wins;
    hide TextsOf;
    var key := (s: string) => s;
    KeptExact(key, p, b, q, c);
    TextKeys(key, Parts(p, ','));
    TextKeys(key, Parts(q, ','));
    TextKeys(key, Others(p, q));
    var before, after := [Rule(p, b), Rule(q, c)], ReplaceFallbacks(Rule(p, b), [Rule(q, c)]).value;
    assert forall v: Viewer :: Respects(v, key, TextsOf(before));
  }

  lemma TextKeys(key: string -> string, selectors: seq<string>)
    requires forall s :: key(s) == s
    ensures Keys(selectors, key) == set s | s in selectors
  {
  }

  // ----- What the comparison of counts finds out -----

  /** No selector that moves stands twice in the list. */
  predicate MovesOnce(selectors: seq<string>, moved: set<string>) {
    forall i, j :: 0 <= i < j < |selectors| && Squash(selectors[i]) in moved ==>
        Squash(selectors[i]) != Squash(selectors[j])
  }

  /** What of `moved` the selectors hold. */
  function Found(selectors: seq<string>, moved: set<string>): set<string> {
    if selectors == [] then {}
    else (if Squash(selectors[0]) in moved then {Squash(selectors[0])} else {}) + Found(selectors[1..], moved)
  }

  lemma {:induction false} FoundIs(selectors: seq<string>, moved: set<string>)
    ensures Found(selectors, moved) == moved * Squashed(selectors)
  {
    hide Squash;
    if selectors != [] {
      var rest := selectors[1..];
      FoundIs(rest, moved);
      SquashedFirst(selectors);
    }
  }

  lemma SquashedFirst(selectors: seq<string>)
    requires selectors != []
    ensures Squashed(selectors) == {Squash(selectors[0])} + Squashed(selectors[1..])
  {
    hide Squash;
    var rest := selectors[1..];
    forall x | x in Squashed(selectors) ensures x in {Squash(selectors[0])} + Squashed(rest) {
      var i :| 0 <= i < |selectors| && Squash(selectors[i]) == x;
      if i > 0 { assert rest[i - 1] == selectors[i]; }
    }
    forall x | x in Squashed(rest) ensures x in Squashed(selectors) {
      var i :| 0 <= i < |rest| && Squash(rest[i]) == x;
      assert selectors[i + 1] == rest[i];
    }
  }

  lemma MovesOnceTail(selectors: seq<string>, moved: set<string>)
    requires selectors != []
    ensures MovesOnce(selectors, moved) <==>
            && MovesOnce(selectors[1..], moved)
            && (Squash(selectors[0]) in moved ==> Squash(selectors[0]) !in Squashed(selectors[1..]))
  {
    hide Squash;
    var rest := selectors[1..];
    assert forall i :: 0 < i < |selectors| ==> selectors[i] == rest[i - 1];
    if MovesOnce(selectors, moved) {
      forall i, j | 0 <= i < j < |rest| && Squash(rest[i]) in moved ensures Squash(rest[i]) != Squash(rest[j]) {
        assert Squash(selectors[i + 1]) != Squash(selectors[j + 1]);
      }
      if Squash(selectors[0]) in moved {
        forall i | 0 <= i < |rest| ensures Squash(rest[i]) != Squash(selectors[0]) {
          assert Squash(selectors[0]) != Squash(selectors[i + 1]);
        }
      }
    }
  }

  lemma {:induction false} StayingCount(selectors: seq<string>, moved: set<string>)
    ensures |selectors| - |Staying(selectors, moved)| >= |Found(selectors, moved)|
    ensures |selectors| - |Staying(selectors, moved)| == |Found(selectors, moved)| <==> MovesOnce(selectors, moved)
  {
    hide Squash; hide MovesOnce;
    if selectors == [] {
      assert MovesOnce(selectors, moved) by { NothingMoves(moved); }
    } else {
      StayingCount(selectors[1..], moved);
      MovesOnceTail(selectors, moved);
      FoundIs(selectors[1..], moved);
    }
  }

  lemma NothingMoves(moved: set<string>)
    ensures MovesOnce([], moved)
  {
  }

  lemma SameSize(a: set<string>, b: set<string>)
    requires a <= b
    ensures |a| <= |b| && (|a| == |b| <==> a == b)
  {
    assert b == a + (b - a);
    assert |b| == |a| + |b - a|;
  }

  /** When the counts agree, the rule has every selector of the block if and only if no selector that
      moves stands twice in the rule. */
  lemma CountFinds(selectors: seq<string>, moved: set<string>)
    requires |selectors| - |Staying(selectors, moved)| == |moved|
    ensures moved <= Squashed(selectors) <==> MovesOnce(selectors, moved)
  {
    hide Squash; hide Staying; hide Squashed; hide MovesOnce;
    StayingCount(selectors, moved);
    FoundIs(selectors, moved);
    SameSize(Found(selectors, moved), moved);
  }
}
