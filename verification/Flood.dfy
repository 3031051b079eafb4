/** A message spreading through a tree of gateways.

    Each gateway that handles a copy passes copies on to some of its
    neighbours, once each, but never back to the one it came from.  Which
    neighbours may change from one handling to the next. */
module Flood {
  import opened Lists
  import opened Topology

  /** Copies on their way, as (from, to), and how often each gateway has
      handled the message; the origin's forwarding counts as handling. */
  datatype Spread = Spread(flight: multiset<(Node, Node)>, handled: multiset<Node>)

  function Copies(x: Node, out: set<Node>): (m: multiset<(Node, Node)>)
    ensures forall a: Node, b: Node :: m[(a, b)] == if a == x && b in out then 1 else 0
  {
    var s := set z | z in out :: (x, z);
    multiset(s)
  }

  /** x may pass a copy that came from `from` on to the neighbours in out. */
  ghost predicate Onwards(t: Tree, x: Node, from: Node, out: set<Node>) {
    forall z :: z in out ==> Adj(t, x, z) && z != from
  }

  /** The origin has sent a copy to each of the gateways in out. */
  ghost predicate Begun(origin: Node, out: set<Node>, s: Spread) {
    s == Spread(Copies(origin, out), multiset{origin})
  }

  /** One handling: gateway x got the copy from `from` and relayed it to out. */
  datatype Handling = Handling(from: Node, x: Node, out: set<Node>)

  function After(s: Spread, h: Handling): Spread {
    Spread(s.flight - multiset{(h.from, h.x)} + Copies(h.x, h.out), s.handled + multiset{h.x})
  }

  ghost predicate Run(s: Spread, hs: seq<Handling>, s': Spread)
    decreases |hs|
  {
    if hs == [] then s' == s
    else (hs[0].from, hs[0].x) in s.flight && Run(After(s, hs[0]), hs[1..], s')
  }

  /** Each gateway passes copies on to neighbours only, and not to the one
      it came from. */
  ghost predicate AllOnwards(t: Tree, hs: seq<Handling>) {
    forall h :: h in hs ==> Onwards(t, h.x, h.from, h.out)
  }

  /** Copies travel away from the origin, and a gateway's copies, handled or
      on their way, come from separate handlings by the one before it. */
  ghost predicate Inv(t: Tree, origin: Node, s: Spread) {
    && s.handled[origin] == 1
    && (forall a: Node, b: Node :: (a, b) in s.flight ==> Adj(t, b, a) && b != origin && a == Hop(t, b, origin))
    && (forall x :: x in s.handled ==> x in Nodes(t))
    && (forall x :: x in Nodes(t) && x != origin ==>
          var p := Hop(t, x, origin); s.handled[x] + s.flight[(p, x)] <= s.handled[p])
  }

  lemma BegunInv(t: Tree, origin: Node, out: set<Node>, s: Spread)
    requires Valid(t) && origin in Nodes(t) && Begun(origin, out, s) && forall z :: z in out ==> Adj(t, origin, z)
    ensures Inv(t, origin, s)
  {
    forall a: Node, b: Node | (a, b) in s.flight ensures Adj(t, b, a) && b != origin && a == Hop(t, b, origin) {
      AdjFacts(t, a, b);
      LinkDirection(t, a, b, origin);
    }
  }

  /** How a step changes the counts. */
  ghost predicate Counted(s: Spread, from: Node, x: Node, out: set<Node>, s': Spread) {
    && (forall y :: s'.handled[y] == s.handled[y] + if y == x then 1 else 0)
    && (forall a: Node, b: Node :: s'.flight[(a, b)] + (if (a, b) == (from, x) then 1 else 0)
         == s.flight[(a, b)] + (if a == x && b in out then 1 else 0))
  }

  lemma AfterCounts(s: Spread, h: Handling)
    requires (h.from, h.x) in s.flight
    ensures Counted(s, h.from, h.x, h.out, After(s, h))
  {
  }

  lemma StepAway(t: Tree, origin: Node, s: Spread, from: Node, x: Node, out: set<Node>, s': Spread, a: Node, b: Node)
    requires Valid(t) && origin in Nodes(t) && Inv(t, origin, s)
    requires (from, x) in s.flight && Onwards(t, x, from, out) && Counted(s, from, x, out, s') && (a, b) in s'.flight
    ensures Adj(t, b, a) && b != origin && a == Hop(t, b, origin)
  {
    if s.flight[(a, b)] == 0 {
      assert a == x && b in out;
      AdjFacts(t, a, b);
      LinkDirection(t, a, b, origin);
      if b == origin { LinkDirection(t, x, origin, origin); }
    }
  }

  lemma AfterInv(t: Tree, origin: Node, s: Spread, h: Handling)
    requires Valid(t) && origin in Nodes(t) && Inv(t, origin, s)
    requires (h.from, h.x) in s.flight && Onwards(t, h.x, h.from, h.out)
    ensures Inv(t, origin, After(s, h))
  {
    AfterCounts(s, h);
    StepCountsInv(t, origin, s, h.from, h.x, h.out, After(s, h));
  }

  lemma StepCountsInv(t: Tree, origin: Node, s: Spread, from: Node, x: Node, out: set<Node>, s': Spread)
    requires Valid(t) && origin in Nodes(t) && Inv(t, origin, s)
    requires (from, x) in s.flight && Onwards(t, x, from, out) && Counted(s, from, x, out, s')
    ensures Inv(t, origin, s')
  {
    AdjFacts(t, x, from);
    forall a: Node, b: Node | (a, b) in s'.flight ensures Adj(t, b, a) && b != origin && a == Hop(t, b, origin) {
      StepAway(t, origin, s, from, x, out, s', a, b);
    }
    forall y | y in Nodes(t) && y != origin
      ensures var p := Hop(t, y, origin); s'.handled[y] + s'.flight[(p, y)] <= s'.handled[p] {
      var p := Hop(t, y, origin);
      HopCloser(t, y, origin);
      assert s.handled[y] + s.flight[(p, y)] <= s.handled[p];
      AdjFacts(t, y, p);
    }
    forall y | y in s'.handled ensures y in Nodes(t) {
      if y != x { assert y in s.handled; }
    }
  }

  /** In a state that satisfies the invariant nobody has handled the message twice. */
  lemma {:induction false} AtMostOnce(t: Tree, origin: Node, s: Spread, x: Node)
    requires Valid(t) && origin in Nodes(t) && x in Nodes(t) && Inv(t, origin, s)
    ensures s.handled[x] <= 1
    ensures x != origin ==> s.handled[x] + s.flight[(Hop(t, x, origin), x)] <= 1
    decreases Dist(t, x, origin)
  {
    if x != origin {
      HopCloser(t, x, origin);
      AtMostOnce(t, origin, s, Hop(t, x, origin));
    }
  }

  lemma {:induction false} RunInv(t: Tree, origin: Node, s: Spread, hs: seq<Handling>, s': Spread)
    requires Valid(t) && origin in Nodes(t) && Inv(t, origin, s) && Run(s, hs, s') && AllOnwards(t, hs)
    ensures Inv(t, origin, s') && |s'.handled| == |s.handled| + |hs|
    decreases |hs|
  {
    if hs != [] {
      assert hs[0] in hs;
      AfterInv(t, origin, s, hs[0]);
      RunInv(t, origin, After(s, hs[0]), hs[1..], s');
    }
  }

  lemma {:induction false} FewHandlings(nodes: set<Node>, handled: multiset<Node>)
    requires forall x :: x in handled ==> x in nodes && handled[x] <= 1
    ensures |handled| <= |nodes|
  {
    if x :| x in handled {
      FewHandlings(nodes - {x}, handled - multiset{x});
    }
  }

  /** However the gateways relay a published message along a tree, each of
      them handles it at most once, and relaying stops. */
  lemma RelayTerminates(t: Tree, origin: Node, out: set<Node>, s: Spread, hs: seq<Handling>, s': Spread)
    requires Valid(t) && origin in Nodes(t) && forall z :: z in out ==> Adj(t, origin, z)
    requires Begun(origin, out, s) && Run(s, hs, s') && AllOnwards(t, hs)
    ensures forall x :: x in s'.handled ==> x in Nodes(t) && s'.handled[x] == 1
    ensures |hs| < |Nodes(t)|
  {
    BegunInv(t, origin, out, s);
    RunInv(t, origin, s, hs, s');
    forall x | x in s'.handled ensures s'.handled[x] == 1 { AtMostOnce(t, origin, s', x); }
    FewHandlings(Nodes(t), s'.handled);
  }

  // ---- Relaying by fixed rules -----------------------------------------------------------

  /** To which gateways one relays a copy, by the gateway it came from and
      the gateway that got it. */
  type Relaying = (Node, Node) -> set<Node>

  ghost predicate Follows(relay: Relaying, hs: seq<Handling>) {
    forall h :: h in hs ==> h.out == relay(h.from, h.x)
  }

  /** Gateways relay to neighbours other than the sender, if that is one. */
  ghost predicate RelaysOnwards(t: Tree, relay: Relaying) {
    forall from, x :: Adj(t, x, from) ==> Onwards(t, x, from, relay(from, x))
  }

  /** A copy only ever comes from the hop towards the origin, and the
      handling of it goes on in the other directions. */
  lemma {:induction false} FollowingIsOnwards(t: Tree, origin: Node, relay: Relaying, s: Spread, hs: seq<Handling>, s': Spread)
    requires Valid(t) && origin in Nodes(t) && Inv(t, origin, s) && RelaysOnwards(t, relay)
    requires Run(s, hs, s') && Follows(relay, hs)
    ensures AllOnwards(t, hs) && Inv(t, origin, s')
    ensures forall h :: h in hs ==> h.from == Hop(t, h.x, origin)
    decreases |hs|
  {
    if hs != [] {
      var h := hs[0];
      assert h in hs && Onwards(t, h.x, h.from, relay(h.from, h.x));
      AfterInv(t, origin, s, h);
      assert h.from == Hop(t, h.x, origin);
      FollowingIsOnwards(t, origin, relay, After(s, h), hs[1..], s');
      FirstAndRest(t, origin, hs);
    }
  }

  lemma FirstAndRest(t: Tree, origin: Node, hs: seq<Handling>)
    requires hs != [] && AllOnwards(t, hs[1..]) && Onwards(t, hs[0].x, hs[0].from, hs[0].out)
    requires hs[0].from == Hop(t, hs[0].x, origin) && forall h :: h in hs[1..] ==> h.from == Hop(t, h.x, origin)
    ensures AllOnwards(t, hs) && forall h :: h in hs ==> h.from == Hop(t, h.x, origin)
  {
    assert hs == [hs[0]] + hs[1..];
  }

  /** What has been relayed to x is on its way or has been handled. */
  ghost predicate Kept(t: Tree, origin: Node, out: set<Node>, relay: Relaying, s: Spread) {
    forall x :: x in Nodes(t) && x != origin && Sends(t, origin, out, relay, x) ==>
      var p := Hop(t, x, origin); s.handled[x] + s.flight[(p, x)] == s.handled[p]
  }

  /** The gateway before x on the way from the origin sends x a copy. */
  ghost predicate Sends(t: Tree, origin: Node, out: set<Node>, relay: Relaying, x: Node) {
    var p := Hop(t, x, origin);
    x in if p == origin then out else relay(Hop(t, p, origin), p)
  }

  lemma {:induction false} RunKept(t: Tree, origin: Node, out: set<Node>, relay: Relaying,
                                   s: Spread, hs: seq<Handling>, s': Spread)
    requires Valid(t) && origin in Nodes(t) && Inv(t, origin, s) && Kept(t, origin, out, relay, s)
    requires RelaysOnwards(t, relay) && Run(s, hs, s') && Follows(relay, hs)
    ensures Kept(t, origin, out, relay, s')
    decreases |hs|
  {
    if hs != [] {
      var h := hs[0];
      assert h in hs && Onwards(t, h.x, h.from, relay(h.from, h.x));
      AfterInv(t, origin, s, h);
      StepKept(t, origin, out, relay, s, h);
      RunKept(t, origin, out, relay, After(s, h), hs[1..], s');
    }
  }

  lemma StepKept(t: Tree, origin: Node, out: set<Node>, relay: Relaying, s: Spread, h: Handling)
    requires Valid(t) && origin in Nodes(t) && Inv(t, origin, s) && Kept(t, origin, out, relay, s)
    requires (h.from, h.x) in s.flight && h.out == relay(h.from, h.x)
    ensures Kept(t, origin, out, relay, After(s, h))
  {
    var s1 := After(s, h);
    AdjFacts(t, h.x, h.from);
    AfterCounts(s, h);
    forall y | y in Nodes(t) && y != origin && Sends(t, origin, out, relay, y)
      ensures s1.handled[y] + s1.flight[(Hop(t, y, origin), y)] == s1.handled[Hop(t, y, origin)] {
      var p := Hop(t, y, origin);
      HopCloser(t, y, origin);
      AdjFacts(t, y, p);
      assert s.handled[y] + s.flight[(p, y)] == s.handled[p];
    }
  }

  /** Every gateway on the way from the origin to x sends on towards x. */
  ghost predicate OnTheWay(t: Tree, origin: Node, out: set<Node>, relay: Relaying, x: Node)
    requires Valid(t) && origin in Nodes(t) && x in Nodes(t)
    decreases Dist(t, x, origin)
  {
    x == origin ||
      (HopCloser(t, x, origin);
       Sends(t, origin, out, relay, x) && OnTheWay(t, origin, out, relay, Hop(t, x, origin)))
  }

  /** If every gateway on the way from the origin to x relays to the next one,
      then x has handled the message exactly once when relaying has stopped. */
  lemma {:induction false} ReachedOnce(t: Tree, origin: Node, out: set<Node>, relay: Relaying, s: Spread, x: Node)
    requires Valid(t) && origin in Nodes(t) && x in Nodes(t)
    requires Inv(t, origin, s) && Kept(t, origin, out, relay, s) && s.flight == multiset{}
    requires OnTheWay(t, origin, out, relay, x)
    ensures s.handled[x] == 1
    decreases Dist(t, x, origin)
  {
    if x != origin {
      HopCloser(t, x, origin);
      ReachedOnce(t, origin, out, relay, s, Hop(t, x, origin));
    }
  }

  lemma BegunKept(t: Tree, origin: Node, out: set<Node>, relay: Relaying, s: Spread)
    requires Valid(t) && origin in Nodes(t) && Begun(origin, out, s) && forall z :: z in out ==> Adj(t, origin, z)
    ensures Kept(t, origin, out, relay, s)
  {
    forall x | x in Nodes(t) && x != origin && Sends(t, origin, out, relay, x)
      ensures var p := Hop(t, x, origin); s.handled[x] + s.flight[(p, x)] == s.handled[p] {
      HopCloser(t, x, origin);
    }
  }

  /** Every run that is over has brought the message to x exactly once. */
  lemma FloodReaches(t: Tree, origin: Node, out: set<Node>, relay: Relaying, s: Spread, hs: seq<Handling>, s': Spread, x: Node)
    requires Valid(t) && origin in Nodes(t) && x in Nodes(t)
    requires Begun(origin, out, s) && (forall z :: z in out ==> Adj(t, origin, z)) && RelaysOnwards(t, relay)
    requires Run(s, hs, s') && Follows(relay, hs) && s'.flight == multiset{}
    requires OnTheWay(t, origin, out, relay, x)
    ensures s'.handled[x] == 1
  {
    BegunInv(t, origin, out, s);
    BegunKept(t, origin, out, relay, s);
    FollowingIsOnwards(t, origin, relay, s, hs, s');
    RunKept(t, origin, out, relay, s, hs, s');
    ReachedOnce(t, origin, out, relay, s', x);
  }

  lemma {:induction false} RunAppend(s: Spread, hs: seq<Handling>, s1: Spread, h: Handling)
    requires Run(s, hs, s1) && (h.from, h.x) in s1.flight
    ensures Run(s, hs + [h], After(s1, h))
    decreases |hs|
  {
    if hs == [] {
      RunFirst(s, h, [], After(s1, h));
      assert hs + [h] == [h] + [];
    } else {
      var first, rest := hs[0], hs[1..];
      RunAppend(After(s, first), rest, s1, h);
      RunFirst(s, first, rest + [h], After(s1, h));
      FirstAndLast(hs, h);
    }
  }

  lemma FirstAndLast(hs: seq<Handling>, h: Handling)
    requires hs != []
    ensures hs + [h] == [hs[0]] + (hs[1..] + [h])
  {
  }

  lemma RunFirst(s: Spread, h: Handling, rest: seq<Handling>, s': Spread)
    requires (h.from, h.x) in s.flight && Run(After(s, h), rest, s')
    ensures Run(s, [h] + rest, s')
  {
    assert ([h] + rest)[1..] == rest;
  }

  /** As long as a copy is on its way it can be handled. */
  lemma OneMore(relay: Relaying, s: Spread, hs: seq<Handling>, s1: Spread) returns (h: Handling)
    requires Run(s, hs, s1) && Follows(relay, hs) && s1.flight != multiset{}
    ensures (h.from, h.x) in s1.flight && Run(s, hs + [h], After(s1, h)) && Follows(relay, hs + [h])
  {
    var c :| c in s1.flight;
    h := Handling(c.0, c.1, relay(c.0, c.1));
    RunAppend(s, hs, s1, h);
  }

  lemma FewSteps(t: Tree, origin: Node, out: set<Node>, relay: Relaying, s: Spread, hs: seq<Handling>, s1: Spread)
    requires Valid(t) && origin in Nodes(t) && RelaysOnwards(t, relay)
    requires Begun(origin, out, s) && (forall z :: z in out ==> Adj(t, origin, z))
    requires Run(s, hs, s1) && Follows(relay, hs)
    ensures |hs| < |Nodes(t)|
  {
    BegunInv(t, origin, out, s);
    FollowingIsOnwards(t, origin, relay, s, hs, s1);
    RelayTerminates(t, origin, out, s, hs, s1);
  }

  /** So every run can be carried on to its end. */
  lemma {:induction false} FloodEnds(t: Tree, origin: Node, out: set<Node>, relay: Relaying,
                                     s: Spread, hs: seq<Handling>, s1: Spread)
    returns (hs': seq<Handling>, s': Spread)
    requires Valid(t) && origin in Nodes(t) && RelaysOnwards(t, relay)
    requires Begun(origin, out, s) && (forall z :: z in out ==> Adj(t, origin, z))
    requires Run(s, hs, s1) && Follows(relay, hs)
    ensures hs <= hs' && Run(s, hs', s') && Follows(relay, hs') && s'.flight == multiset{}
    decreases |Nodes(t)| - |hs|
  {
    FewSteps(t, origin, out, relay, s, hs, s1);
    if s1.flight == multiset{} {
      hs', s' := hs, s1;
    } else {
      var h := OneMore(relay, s, hs, s1);
      hs', s' := FloodEnds(t, origin, out, relay, s, hs + [h], After(s1, h));
    }
  }
}
