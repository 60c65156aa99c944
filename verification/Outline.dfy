/** One pass over an outline given as nodes in depth-first order with their depths: which nodes a
    search shows, and how far scroll areas clip each node. */
module Outline {
  import opened Basics

  // ----- Ancestry in depth-first order -----

  /** Node `j` is below node `i`: from `i` on, everything up to `j` is deeper. */
  predicate Below(depths: seq<int>, i: nat, j: nat) {
    i < j < |depths| && forall k :: i < k <= j ==> depths[k] > depths[i]
  }

  /** Node `i` may still have nodes below it when `n` nodes have been seen. */
  predicate Open(depths: seq<int>, i: nat, n: nat) {
    i < n <= |depths| && forall k :: i < k < n ==> depths[k] > depths[i]
  }

  /** The stack before node `n`: exactly the open nodes, outermost first. */
  ghost predicate IsStack(depths: seq<int>, stack: seq<nat>, n: nat) {
    && (forall a :: 0 <= a < |stack| ==> Open(depths, stack[a], n))
    && (forall a, b :: 0 <= a < b < |stack| ==> stack[a] < stack[b])
    && (forall i: nat :: Open(depths, i, n) ==> i in stack)
  }

  /** The stack at node `n`: exactly the nodes it is below, outermost first. */
  ghost predicate IsPath(depths: seq<int>, stack: seq<nat>, n: nat) {
    && (forall a :: 0 <= a < |stack| ==> Below(depths, stack[a], n))
    && (forall a, b :: 0 <= a < b < |stack| ==> stack[a] < stack[b])
    && (forall i: nat :: Below(depths, i, n) ==> i in stack)
  }

  /** While the top is no shallower than the node, it is not above it; once it is, the whole stack is. */
  lemma PoppedIsPath(depths: seq<int>, before: seq<nat>, stack: seq<nat>, n: nat)
    requires n < |depths| && IsStack(depths, before, n) && stack <= before
    requires forall a :: |stack| <= a < |before| ==> depths[before[a]] >= depths[n]
    requires stack != [] ==> depths[stack[|stack| - 1]] < depths[n]
    ensures IsPath(depths, stack, n)
  {
    forall a | 0 <= a < |stack| ensures Below(depths, stack[a], n) {
      var top := stack[|stack| - 1];
      assert stack[a] == before[a] && Open(depths, before[a], n) && Open(depths, before[|stack| - 1], n);
      if a < |stack| - 1 { assert before[a] < before[|stack| - 1]; }
    }
    forall i: nat | Below(depths, i, n) ensures i in stack {
      assert Open(depths, i, n);
      var a :| 0 <= a < |before| && before[a] == i;
      assert a < |stack| && stack[a] == i;
    }
  }

  lemma PushedIsStack(depths: seq<int>, stack: seq<nat>, n: nat)
    requires n < |depths| && IsPath(depths, stack, n)
    ensures IsStack(depths, stack + [n], n + 1)
  {
    var next := stack + [n];
    forall a | 0 <= a < |next| ensures Open(depths, next[a], n + 1) {
      if a < |stack| { assert Below(depths, stack[a], n); }
    }
    forall i: nat | Open(depths, i, n + 1) ensures i in next {
      if i < n { assert Below(depths, i, n); assert i in stack; } else { assert next[|stack|] == n; }
    }
    forall a, b | 0 <= a < b < |next| ensures next[a] < next[b] {
      if b == |stack| { assert Below(depths, stack[a], n); }
    }
  }

  // ----- The search -----

  predicate IsAscii(s: string) {
    forall i :: 0 <= i < |s| ==> s[i] as int < 128
  }

  predicate Contains(line: string, needle: string) {
    exists k :: 0 <= k <= |line| && needle <= line[k..]
  }

  predicate Supports(query: string) {
    query != "" && |query| <= 800 && IsAscii(query)
  }

  /** An outline line that is not plain ASCII is never ruled out. */
  predicate Matches(line: string, query: string) {
    !IsAscii(line) || Contains(LowerCase(line), LowerCase(query))
  }

  /** The query stands in the line from `k` on, in any case. */
  predicate StandsAt(line: string, query: string, k: nat) {
    k + |query| <= |line| && SameLetters(line[k..k + |query|], query)
  }

  lemma StandsIs(line: string, query: string, k: nat)
    requires k <= |line|
    ensures LowerCase(query) <= LowerCase(line)[k..] <==> StandsAt(line, query, k)
  {
    hide SameLetters;
    if k + |query| <= |line| {
      var part := line[k..k + |query|];
      LowerCaseIs(part, query);
      assert LowerCase(line)[k..][..|query|] == LowerCase(part);
    }
  }

  /** A line matches exactly when it is not plain ASCII or the query stands somewhere in it, in any case. */
  lemma MatchesIs(line: string, query: string)
    ensures Matches(line, query) <==>
            (exists i :: 0 <= i < |line| && line[i] as int >= 128) || exists k: nat :: StandsAt(line, query, k)
  {
    hide SameLetters;
    var lower, needle := LowerCase(line), LowerCase(query);
    forall k: nat | k <= |line| ensures needle <= lower[k..] <==> StandsAt(line, query, k) {
      StandsIs(line, query, k);
    }
    hide LowerCase;
    if k: nat :| StandsAt(line, query, k) { assert needle <= lower[k..]; }
  }

  datatype Node = Node(line: string, depth: int)

  function Depths(nodes: seq<Node>): seq<int> {
    seq(|nodes|, i requires 0 <= i < |nodes| => nodes[i].depth)
  }

  /** The node matches, or something below it does. */
  predicate Shown(nodes: seq<Node>, query: string, i: nat)
    requires i < |nodes|
  {
    || Matches(nodes[i].line, query)
    || exists j :: i < j < |nodes| && Below(Depths(nodes), i, j) && Matches(nodes[j].line, query)
  }

  /** The nodes from `i` on that are shown, in order. */
  function ShownFrom(nodes: seq<Node>, query: string, i: nat): seq<Node>
    requires i <= |nodes|
    decreases |nodes| - i
  {
    if i == |nodes| then []
    else (if Shown(nodes, query, i) then [nodes[i]] else []) + ShownFrom(nodes, query, i + 1)
  }

  function Members(path: seq<nat>): set<nat> {
    set a | a in path
  }

  method Candidates(nodes: seq<Node>, query: string) returns (r: seq<Node>)
    ensures r == if Supports(query) then ShownFrom(nodes, query, 0) else nodes
    ensures query == "" || |query| > 800 || (exists i :: 0 <= i < |query| && query[i] as int >= 128) ==> r == nodes
    ensures query != "" && |query| <= 800 && (forall i :: 0 <= i < |query| ==> query[i] as int < 128) ==>
              r == ShownFrom(nodes, query, 0)
  {
    hide Matches; hide IsStack; hide IsPath; hide Below; hide Marked; hide Members; hide Shown;
    if !Supports(query) { return nodes; }
    var depths := Depths(nodes);
    var ancestors: seq<nat> := [];
    var shown: set<nat> := {};
    EmptyStack(depths);
    NoneMarked(nodes, query);
    for index := 0 to |nodes|
      invariant IsStack(depths, ancestors, index)
      invariant Marked(nodes, query, shown, index)
    {
      var before := ancestors;
      StackBounds(depths, ancestors, index);
      while ancestors != [] && nodes[ancestors[|ancestors| - 1]].depth >= nodes[index].depth
        invariant ancestors <= before
        invariant forall a :: |ancestors| <= a < |before| ==> depths[before[a]] >= depths[index]
      {
        ancestors := ancestors[..|ancestors| - 1];
      }
      PoppedIsPath(depths, before, ancestors, index);
      MarkedNext(nodes, query, shown, ancestors, index);
      if Matches(nodes[index].line, query) {
        shown := shown + {index} + Members(ancestors);
      }
      PushedIsStack(depths, ancestors, index);
      ancestors := ancestors + [index];
    }
    AllMarked(nodes, query, shown);
    r := Kept(nodes, query, shown);
  }

  method Kept(nodes: seq<Node>, query: string, shown: set<nat>) returns (r: seq<Node>)
    requires forall i: nat :: i < |nodes| ==> (i in shown <==> Shown(nodes, query, i))
    ensures r == ShownFrom(nodes, query, 0)
  {
    hide Shown;
    r := [];
    for i := 0 to |nodes|
      invariant ShownFrom(nodes, query, 0) == r + ShownFrom(nodes, query, i)
    {
      if i in shown { r := r + [nodes[i]]; }
    }
  }

  lemma EmptyStack(depths: seq<int>)
    ensures IsStack(depths, [], 0)
  {
  }

  lemma StackBounds(depths: seq<int>, stack: seq<nat>, n: nat)
    requires IsStack(depths, stack, n)
    ensures forall a :: 0 <= a < |stack| ==> stack[a] < n
  {
  }

  /** Shown by a match among the first `n` nodes. */
  predicate ShownBy(nodes: seq<Node>, query: string, i: nat, n: nat)
    requires i < |nodes| && n <= |nodes|
  {
    exists j :: i <= j < n && (j == i || Below(Depths(nodes), i, j)) && Matches(nodes[j].line, query)
  }

  ghost predicate Marked(nodes: seq<Node>, query: string, shown: set<nat>, n: nat) {
    n <= |nodes| && forall i: nat :: i in shown <==> i < n && ShownBy(nodes, query, i, n)
  }

  lemma NoneMarked(nodes: seq<Node>, query: string)
    ensures Marked(nodes, query, {}, 0)
  {
  }

  /** A match shows itself and its path. */
  lemma MarkedNext(nodes: seq<Node>, query: string, shown: set<nat>, path: seq<nat>, n: nat)
    requires n < |nodes| && IsPath(Depths(nodes), path, n) && Marked(nodes, query, shown, n)
    ensures Matches(nodes[n].line, query) ==> Marked(nodes, query, shown + {n} + Members(path), n + 1)
    ensures !Matches(nodes[n].line, query) ==> Marked(nodes, query, shown, n + 1)
  {
    hide Matches; hide ShownBy; hide IsPath;
    var next := if Matches(nodes[n].line, query) then shown + {n} + Members(path) else shown;
    forall i: nat
      ensures i in next <==> i < n + 1 && ShownBy(nodes, query, i, n + 1)
    {
      if i in path { PathBefore(Depths(nodes), path, n, i); }
      if i <= n { ShownNext(nodes, query, path, n, i); }
    }
    assert Marked(nodes, query, next, n + 1);
  }

  lemma PathBefore(depths: seq<int>, path: seq<nat>, n: nat, i: nat)
    requires IsPath(depths, path, n) && i in path
    ensures i < n
  {
  }

  lemma ShownNext(nodes: seq<Node>, query: string, path: seq<nat>, n: nat, i: nat)
    requires i <= n < |nodes| && IsPath(Depths(nodes), path, n)
    ensures ShownBy(nodes, query, i, n + 1) <==>
            (i < n && ShownBy(nodes, query, i, n)) || (Matches(nodes[n].line, query) && (i == n || i in path))
  {
    hide Matches;
    if i in path { assert Below(Depths(nodes), i, n); }
  }

  lemma AllMarked(nodes: seq<Node>, query: string, shown: set<nat>)
    requires Marked(nodes, query, shown, |nodes|)
    ensures forall i: nat :: i < |nodes| ==> (i in shown <==> Shown(nodes, query, i))
  {
    hide Matches; hide Below;
  }

  // ----- The same search on the tree the outline was written from -----

  datatype Tree = Tree(line: string, children: seq<Tree>)

  function Flatten(trees: seq<Tree>, depth: int): seq<Node>
    decreases trees
  {
    if trees == [] then []
    else [Node(trees[0].line, depth)] + Flatten(trees[0].children, depth + 1) + Flatten(trees[1..], depth)
  }

  /** Something in the trees matches. */
  predicate AnyHit(trees: seq<Tree>, query: string)
    decreases trees
  {
    trees != [] && (Matches(trees[0].line, query) || AnyHit(trees[0].children, query) || AnyHit(trees[1..], query))
  }

  /** The trees without the branches in which nothing matches. */
  function Pruned(trees: seq<Tree>, query: string): seq<Tree>
    decreases trees
  {
    if trees == [] then []
    else
      (if Matches(trees[0].line, query) || AnyHit(trees[0].children, query)
       then [Tree(trees[0].line, Pruned(trees[0].children, query))] else [])
      + Pruned(trees[1..], query)
  }

  predicate AtLeast(nodes: seq<Node>, depth: int) {
    forall i :: 0 <= i < |nodes| ==> nodes[i].depth >= depth
  }

  lemma FlattenDepth(trees: seq<Tree>, depth: int)
    ensures AtLeast(Flatten(trees, depth), depth)
    ensures trees != [] ==> Flatten(trees, depth) != [] && Flatten(trees, depth)[0].depth == depth
    decreases trees
  {
    if trees != [] {
      FlattenDepth(trees[0].children, depth + 1);
      FlattenDepth(trees[1..], depth);
    }
  }

  predicate AnyMatch(nodes: seq<Node>, query: string) {
    exists j :: 0 <= j < |nodes| && Matches(nodes[j].line, query)
  }

  lemma AnyMatchCat(a: seq<Node>, b: seq<Node>, query: string)
    ensures AnyMatch(a + b, query) <==> AnyMatch(a, query) || AnyMatch(b, query)
  {
    hide Matches;
    if AnyMatch(a, query) {
      var j :| 0 <= j < |a| && Matches(a[j].line, query);
      assert (a + b)[j] == a[j];
    }
    if AnyMatch(b, query) {
      var j :| 0 <= j < |b| && Matches(b[j].line, query);
      assert (a + b)[|a| + j] == b[j];
    }
  }

  lemma FlattenHit(trees: seq<Tree>, depth: int, query: string)
    ensures AnyMatch(Flatten(trees, depth), query) <==> AnyHit(trees, query)
    decreases trees
  {
    hide Matches;
    if trees != [] {
      var r, c, rest := [Node(trees[0].line, depth)], Flatten(trees[0].children, depth + 1), Flatten(trees[1..], depth);
      FlattenHit(trees[0].children, depth + 1, query);
      FlattenHit(trees[1..], depth, query);
      AnyMatchCat(r, c, query);
      AnyMatchCat(r + c, rest, query);
      assert AnyMatch(r, query) <==> Matches(r[0].line, query);
    }
  }

  /** What comes before does not change what is shown after. */
  lemma ShownAfter(a: seq<Node>, b: seq<Node>, query: string, i: nat)
    requires i < |b|
    ensures Shown(a + b, query, |a| + i) <==> Shown(b, query, i)
  {
    hide Matches; hide Below; hide Depths;
    var ab, n := a + b, |a|;
    forall j: nat | i < j < |b| ensures Below(Depths(ab), n + i, n + j) <==> Below(Depths(b), i, j) {
      BelowAfter(a, b, i, j);
    }
    if Shown(ab, query, n + i) && !Matches(b[i].line, query) {
      var j :| n + i < j < |ab| && Below(Depths(ab), n + i, j) && Matches(ab[j].line, query);
      assert ab[j] == b[j - n];
      assert Below(Depths(ab), n + i, n + (j - n));
    }
    if Shown(b, query, i) && !Matches(b[i].line, query) {
      var j :| i < j < |b| && Below(Depths(b), i, j) && Matches(b[j].line, query);
      assert ab[n + j] == b[j];
    }
  }

  lemma BelowAfter(a: seq<Node>, b: seq<Node>, i: nat, j: nat)
    requires i < j < |b|
    ensures Below(Depths(a + b), |a| + i, |a| + j) <==> Below(Depths(b), i, j)
  {
    var d, e, n := Depths(a + b), Depths(b), |a|;
    assert forall k :: n <= k < n + |b| ==> d[k] == e[k - n];
    if Below(d, n + i, n + j) {
      forall k | i < k <= j ensures e[k] > e[i] { assert d[n + k] > d[n + i]; }
    }
  }

  /** What follows changes nothing either when it starts no deeper than anything before. */
  lemma ShownBefore(a: seq<Node>, b: seq<Node>, query: string, depth: int, i: nat)
    requires i < |a| && AtLeast(a, depth) && (b != [] ==> b[0].depth <= depth)
    ensures Shown(a + b, query, i) <==> Shown(a, query, i)
  {
    hide Matches;
    var ab, n := a + b, |a|;
    assert forall k :: 0 <= k < n ==> ab[k] == a[k] && Depths(ab)[k] == Depths(a)[k];
    if Shown(ab, query, i) && !Matches(a[i].line, query) {
      var j :| i < j < |ab| && Below(Depths(ab), i, j) && Matches(ab[j].line, query);
      assert b != [] ==> Depths(ab)[n] <= Depths(ab)[i];
      assert Below(Depths(a), i, j) && a[j] == ab[j];
    }
    if Shown(a, query, i) && !Matches(a[i].line, query) {
      var j :| i < j < |a| && Below(Depths(a), i, j) && Matches(a[j].line, query);
      assert Below(Depths(ab), i, j);
    }
  }

  lemma {:induction false} ShownFromAfter(a: seq<Node>, b: seq<Node>, query: string, i: nat)
    requires i <= |b|
    ensures ShownFrom(a + b, query, |a| + i) == ShownFrom(b, query, i)
    decreases |b| - i
  {
    hide Shown;
    if i < |b| {
      ShownAfter(a, b, query, i);
      ShownFromAfter(a, b, query, i + 1);
    }
  }

  lemma {:induction false} ShownFromCat(a: seq<Node>, b: seq<Node>, query: string, depth: int, i: nat)
    requires i <= |a| && AtLeast(a, depth) && (b != [] ==> b[0].depth <= depth)
    ensures ShownFrom(a + b, query, i) == ShownFrom(a, query, i) + ShownFrom(b, query, 0)
    decreases |a| - i
  {
    hide Shown;
    if i == |a| {
      ShownFromAfter(a, b, query, 0);
    } else {
      ShownBefore(a, b, query, depth, i);
      ShownFromCat(a, b, query, depth, i + 1);
    }
  }

  lemma RootShown(r: Node, c: seq<Node>, query: string)
    requires AtLeast(c, r.depth + 1)
    ensures Shown([r] + c, query, 0) <==> Matches(r.line, query) || AnyMatch(c, query)
  {
    hide Matches;
    var all := [r] + c;
    forall j: nat | 0 < j < |all| ensures Below(Depths(all), 0, j) {
      assert forall k :: 0 < k < |all| ==> all[k] == c[k - 1];
    }
    if AnyMatch(c, query) {
      var j :| 0 <= j < |c| && Matches(c[j].line, query);
      assert all[j + 1] == c[j] && Below(Depths(all), 0, j + 1);
    }
  }

  lemma NothingKept(trees: seq<Tree>, query: string)
    requires !AnyHit(trees, query)
    ensures Pruned(trees, query) == []
    decreases trees
  {
    hide Matches;
    if trees != [] { NothingKept(trees[1..], query); }
  }

  lemma FlattenStep(trees: seq<Tree>, depth: int)
    ensures trees == [] ==> Flatten(trees, depth) == []
    ensures trees != [] ==>
              Flatten(trees, depth) == [Node(trees[0].line, depth)] + Flatten(trees[0].children, depth + 1)
                                       + Flatten(trees[1..], depth)
  {
  }

  lemma PrunedStep(trees: seq<Tree>, query: string)
    ensures trees == [] ==> Pruned(trees, query) == []
    ensures trees != [] && (Matches(trees[0].line, query) || AnyHit(trees[0].children, query)) ==>
              var kept := Pruned(trees, query);
              && kept != [] && kept[0] == Tree(trees[0].line, Pruned(trees[0].children, query))
              && kept[1..] == Pruned(trees[1..], query)
    ensures trees != [] && !(Matches(trees[0].line, query) || AnyHit(trees[0].children, query)) ==>
              Pruned(trees, query) == Pruned(trees[1..], query)
  {
    hide Matches; hide AnyHit;
  }

  lemma NothingShown(query: string)
    ensures ShownFrom([], query, 0) == []
  {
  }

  lemma FirstShown(nodes: seq<Node>, query: string)
    requires nodes != []
    ensures ShownFrom(nodes, query, 0)
            == (if Shown(nodes, query, 0) then [nodes[0]] else []) + ShownFrom(nodes, query, 1)
  {
    hide Shown;
  }

  /** Searching the flattened outline gives the flattened outline of the pruned tree. */
  lemma SearchIsPruning(trees: seq<Tree>, depth: int, query: string)
    ensures ShownFrom(Flatten(trees, depth), query, 0) == Flatten(Pruned(trees, query), depth)
    decreases trees
  {
    hide Matches; hide Shown; hide ShownFrom; hide Flatten; hide Pruned; hide AnyHit; hide AnyMatch;
    FlattenStep(trees, depth);
    PrunedStep(trees, query);
    if trees == [] {
      NothingShown(query);
      FlattenStep([], depth);
    } else {
      var t := trees[0];
      var r, c, rest := Node(t.line, depth), Flatten(t.children, depth + 1), Flatten(trees[1..], depth);
      var x := [r] + c;
      FlattenDepth(t.children, depth + 1);
      FlattenDepth(trees[1..], depth);
      FlattenStep(trees[1..], depth);
      ShownFromCat(x, rest, query, depth, 0);
      ShownFromAfter([r], c, query, 0);
      RootShown(r, c, query);
      FlattenHit(t.children, depth + 1, query);
      SearchIsPruning(t.children, depth + 1, query);
      SearchIsPruning(trees[1..], depth, query);
      FirstShown(x, query);
      assert ShownFrom(x, query, 0)
          == (if Shown(x, query, 0) then [r] else []) + Flatten(Pruned(t.children, query), depth + 1);
      if Shown(x, query, 0) {
        FlattenStep(Pruned(trees, query), depth);
      } else {
        NothingKept(t.children, query);
        FlattenStep([], depth + 1);
        assert ShownFrom(x, query, 0) == [];
      }
    }
  }
}
