/** The shape of a RAMS network configured as a tree.

    Every finite tree arises from one node by attaching leaves one at a time,
    so a tree is recorded as that construction.  `Hop` and `Dist` are the
    routing facts the gateways rely on; `UniqueRoute` shows that they describe
    the only simple path between two nodes. */
module Topology {
  import opened Lists

  /** A continuum number, which names both a continuum and its RAMS gateway. */
  type Node = n: nat | 0 < n witness 1

  datatype Tree =
    | Single(root: Node)
    | Attach(rest: Tree, leaf: Node, at: Node)

  function Nodes(t: Tree): set<Node> {
    match t
    case Single(root) => {root}
    case Attach(rest, leaf, _) => Nodes(rest) + {leaf}
  }

  predicate Valid(t: Tree) {
    match t
    case Single(_) => true
    case Attach(rest, leaf, at) => Valid(rest) && leaf !in Nodes(rest) && at in Nodes(rest)
  }

  /** x and y are neighbours. */
  predicate Adj(t: Tree, x: Node, y: Node) {
    match t
    case Single(_) => false
    case Attach(rest, leaf, at) =>
      Adj(rest, x, y) || (x == leaf && y == at) || (x == at && y == leaf)
  }

  /** The neighbour of x on the way to c (c itself when x == c). */
  function Hop(t: Tree, x: Node, c: Node): Node {
    if x == c then c else
    match t
    case Single(_) => c
    case Attach(rest, leaf, at) =>
      if x == leaf then at
      else if c == leaf then (if x == at then leaf else Hop(rest, x, at))
      else Hop(rest, x, c)
  }

  /** The number of links between x and c. */
  function Dist(t: Tree, x: Node, c: Node): nat {
    if x == c then 0 else
    match t
    case Single(_) => 0
    case Attach(rest, leaf, at) =>
      if x == leaf then 1 + Dist(rest, at, c)
      else if c == leaf then 1 + Dist(rest, x, at)
      else Dist(rest, x, c)
  }

  lemma {:induction false} AdjFacts(t: Tree, x: Node, y: Node)
    requires Valid(t) && Adj(t, x, y)
    ensures x in Nodes(t) && y in Nodes(t) && x != y && Adj(t, y, x)
  {
    match t
    case Single(_) =>
    case Attach(rest, _, _) => if Adj(rest, x, y) { AdjFacts(rest, x, y); }
  }

  /** A hop goes to a neighbour that is exactly one link closer. */
  lemma {:induction false} HopCloser(t: Tree, x: Node, c: Node)
    requires Valid(t) && x in Nodes(t) && c in Nodes(t) && x != c
    ensures Hop(t, x, c) in Nodes(t) && Adj(t, x, Hop(t, x, c))
    ensures Dist(t, Hop(t, x, c), c) + 1 == Dist(t, x, c)
  {
    match t
    case Single(_) =>
    case Attach(rest, leaf, at) =>
      if x == leaf {
      } else if c == leaf {
        if x != at { HopCloser(rest, x, at); }
      } else {
        HopCloser(rest, x, c);
      }
  }

  /** Each link points towards c in exactly one of its two directions. */
  lemma {:induction false} LinkDirection(t: Tree, x: Node, y: Node, c: Node)
    requires Valid(t) && Adj(t, x, y) && c in Nodes(t)
    ensures Hop(t, x, c) == y <==> Hop(t, y, c) != x
  {
    AdjFacts(t, x, y);
    match t
    case Single(_) =>
    case Attach(rest, leaf, at) =>
      if Adj(rest, x, y) {
        AdjFacts(rest, x, y);
        LinkDirection(rest, x, y, if c == leaf then at else c);
      } else {
        var z := if x == leaf then y else x;
        if c != leaf && z != c { HopCloser(rest, z, c); }
      }
  }

  /** p is a path through links. */
  ghost predicate IsPath(t: Tree, p: seq<Node>) {
    && |p| > 0
    && (forall i :: 0 <= i < |p| ==> p[i] in Nodes(t))
    && (forall i :: 0 <= i < |p| - 1 ==> Adj(t, p[i], p[i+1]))
  }


  /** The route that follows `Hop` from x to c. */
  function Route(t: Tree, x: Node, c: Node): (p: seq<Node>)
    requires Valid(t) && x in Nodes(t) && c in Nodes(t)
    ensures |p| == Dist(t, x, c) + 1 && p[0] == x && p[|p|-1] == c
    decreases Dist(t, x, c)
  {
    if x == c then [x]
    else
      HopCloser(t, x, c);
      [x] + Route(t, Hop(t, x, c), c)
  }

  /** A path that never turns back keeps closing in on its end, from any point on. */
  lemma {:induction false} SimplePathClosesIn(t: Tree, p: seq<Node>, i: nat)
    requires Valid(t) && IsPath(t, p) && NoRepeats(p) && i < |p| - 1
    ensures Hop(t, p[i], p[|p|-1]) == p[i+1]
    decreases |p| - i
  {
    var c := p[|p|-1];
    if i + 1 == |p| - 1 {
      LinkDirection(t, p[i], c, c);
      assert Hop(t, c, c) == c;
    } else {
      SimplePathClosesIn(t, p, i + 1);
      LinkDirection(t, p[i], p[i+1], c);
    }
  }

  /** There is exactly one simple path between two nodes: the hop-by-hop route. */
  lemma {:induction false} UniqueRoute(t: Tree, p: seq<Node>)
    requires Valid(t) && IsPath(t, p) && NoRepeats(p)
    ensures p == Route(t, p[0], p[|p|-1])
    decreases |p|
  {
    if |p| > 1 {
      SimplePathClosesIn(t, p, 0);
      var q := p[1..];
      assert IsPath(t, q) by {
        forall i | 0 <= i < |q| - 1 ensures Adj(t, q[i], q[i+1]) { assert Adj(t, p[i+1], p[i+2]); }
      }
      UniqueRoute(t, q);
      assert p == [p[0]] + q;
    }
  }
}
