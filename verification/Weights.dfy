/** Weights of petition RPDUs.

    Every RPDU on its way and every place in an SGS is given a weight, such
    that what a gateway sends and notes on receiving an RPDU always weighs less
    than that RPDU: an assertion weighs as much as it can still set off on the
    far side of its link. */
module Weights {
  import opened Lists
  import opened Topology
  import opened Petitions
  import opened Effects
  import opened Soundness
  import opened Shrinking

  // ---- The far side of a link --------------------------------------------------------------------

  /** The nodes that a reaches through its neighbour b. */
  ghost function Side(t: Tree, a: Node, b: Node): set<Node> {
    set x | x in Nodes(t) && x != a && Hop(t, a, x) == b
  }

  ghost function Sides(t: Tree, b: Node, to: seq<Node>): set<Node> {
    set x | x in Nodes(t) && x != b && Hop(t, b, x) in to
  }

  ghost function SideSum(t: Tree, b: Node, to: seq<Node>): (n: nat) {
    if to == [] then 0 else SideSum(t, b, to[..|to|-1]) + |Side(t, b, to[|to|-1])|
  }

  lemma {:induction false} SideSumIs(t: Tree, b: Node, to: seq<Node>)
    requires NoRepeats(to)
    ensures SideSum(t, b, to) == |Sides(t, b, to)|
  {
    if to == [] {
      assert Sides(t, b, to) == {};
    } else {
      SideSumIs(t, b, to[..|to|-1]);
      SidesStep(t, b, to);
    }
  }

  lemma SidesStep(t: Tree, b: Node, to: seq<Node>)
    requires NoRepeats(to) && to != []
    ensures var n := |to| - 1; |Sides(t, b, to)| == |Sides(t, b, to[..n])| + |Side(t, b, to[n])|
  {
    var n := |to| - 1;
    assert to == to[..n] + [to[n]];
    assert to[n] !in to[..n];
    assert Sides(t, b, to) == Sides(t, b, to[..n]) + Side(t, b, to[n]);
    assert Sides(t, b, to[..n]) !! Side(t, b, to[n]);
  }

  lemma {:induction false} SubsetCard<T>(a: set<T>, b: set<T>)
    requires a <= b
    ensures |a| <= |b|
  {
    if x :| x in a { SubsetCard(a - {x}, b - {x}); }
  }

  lemma SideFits(t: Tree, a: Node, b: Node)
    requires Valid(t) && Adj(t, a, b)
    ensures 1 <= |Side(t, a, b)| <= |Nodes(t)|
  {
    AdjFacts(t, a, b);
    LinkDirection(t, a, b, b);
    assert b in Side(t, a, b);
    SubsetCard(Side(t, a, b), Nodes(t));
  }

  /** What lies behind b's other neighbours lies behind b, and b does so too. */
  lemma SidesFit(t: Tree, a: Node, b: Node, to: seq<Node>)
    requires Valid(t) && Adj(t, a, b) && NoRepeats(to) && a !in to && forall z :: z in to ==> Adj(t, b, z)
    ensures SideSum(t, b, to) + 1 <= |Side(t, a, b)|
  {
    AdjFacts(t, a, b);
    SideSumIs(t, b, to);
    LinkDirection(t, a, b, b);
    assert b in Side(t, a, b);
    forall x | x in Sides(t, b, to) ensures x in Side(t, a, b) - {b} {
      LinkDirection(t, a, b, x);
      if x == a { LinkDirection(t, b, a, a); }
    }
    SubsetCard(Sides(t, b, to), Side(t, a, b) - {b});
  }

  // ---- Products --------------------------------------------------------------------------------------

  /** c * n. */
  function Times(c: nat, n: nat): (r: nat) {
    if n == 0 then 0 else Times(c, n - 1) + c
  }

  lemma {:induction false} Distribute(c: nat, m: nat, n: nat)
    ensures Times(c, m + n) == Times(c, m) + Times(c, n)
  {
    if n > 0 { Distribute(c, m, n - 1); }
  }

  lemma Grows(c: nat, m: nat, n: nat)
    requires m <= n
    ensures Times(c, m) <= Times(c, n)
  {
    Distribute(c, m, n - m);
  }

  lemma {:induction false} GrowsLeft(c: nat, d: nat, n: nat)
    requires c <= d
    ensures Times(c, n) <= Times(d, n)
  {
    if n > 0 { GrowsLeft(c, d, n - 1); }
  }

  lemma {:induction false} Twice(n: nat)
    ensures Times(2, n) == 2 * n
  {
    if n > 0 { Twice(n - 1); }
  }

  // ---- Weights -------------------------------------------------------------------------------------

  /** What the weights depend on: the tree, how many petitions there can be at
      one gateway, and who gets no RPDUs any more. */
  datatype Scale = Scale(t: Tree, k: nat, dead: set<Node>)

  ghost function Size(sc: Scale): (n: nat) {
    |Nodes(sc.t)|
  }

  /** What a declaration sets off per gateway it reaches. */
  ghost function Unit(sc: Scale): (n: nat) {
    Times(2 * Size(sc), sc.k) + 2
  }

  function LessOne(n: nat): (m: nat) {
    if n == 0 then 0 else n - 1
  }

  /** The weight of r on its way from a to b. */
  ghost function Weight(sc: Scale, a: Node, b: Node, r: Rpdu): (n: nat) {
    if b in sc.dead then 0
    else if r.Cancellation? then 1
    else if r.key.subject >= 0 then LessOne(Times(2, |Side(sc.t, a, b)|))
    else if r.key == OwnKey(a) then Times(Times(Unit(sc), Size(sc)), 1 + sc.k) + 1
    else LessOne(Times(Unit(sc), |Side(sc.t, a, b)|))
  }

  ghost function SendsWeight(sc: Scale, a: Node, sends: seq<Send>): (n: nat) {
    if sends == [] then 0
    else SendsWeight(sc, a, sends[..|sends|-1]) + Weight(sc, a, sends[|sends|-1].dest, sends[|sends|-1].rpdu)
  }

  /** How many places there are in the SGSs. */
  function Asks(ps: seq<Petition>): (n: nat) {
    if ps == [] then 0 else Asks(ps[..|ps|-1]) + |ps[|ps|-1].sgs|
  }

  lemma {:induction false} SendsConcat(sc: Scale, a: Node, s: seq<Send>, s': seq<Send>)
    ensures SendsWeight(sc, a, s + s') == SendsWeight(sc, a, s) + SendsWeight(sc, a, s')
  {
    if s' == [] {
      assert s + s' == s;
    } else {
      assert (s + s')[..|s + s'|-1] == s + s'[..|s'|-1];
      SendsConcat(sc, a, s, s'[..|s'|-1]);
    }
  }

  lemma {:induction false} AsksUpdate(ps: seq<Petition>, i: nat, p: Petition)
    requires i < |ps|
    ensures Asks(ps[i := p]) + |ps[i].sgs| == Asks(ps) + |p.sgs|
  {
    var n := |ps| - 1;
    if i < n {
      AsksUpdate(ps[..n], i, p);
      assert ps[i := p][..n] == ps[..n][i := p];
    } else {
      assert ps[i := p][..n] == ps[..n];
    }
  }

  lemma AsksAppend(ps: seq<Petition>, p: Petition)
    ensures Asks(ps + [p]) == Asks(ps) + |p.sgs|
  {
    assert (ps + [p])[..|ps|] == ps;
  }

  // ---- What one gateway does ---------------------------------------------------------------------

  /** Sending the same RPDU to neighbours of b other than a, and noting each,
      weighs at most c for every gateway that is behind b. */
  lemma {:induction false} SendAllWeighs(sc: Scale, b: Node, to: seq<Node>, r: Rpdu, c: nat)
    requires forall i :: 0 <= i < |to| ==> Affordable(sc, b, to[i], r, c)
    ensures SendsWeight(sc, b, SendAll(to, r)) + |to| <= Times(c, SideSum(sc.t, b, to))
  {
    if to != [] {
      var n := |to| - 1;
      assert to == to[..n] + [to[n]];
      assert Affordable(sc, b, to[n], r, c);
      SendAllWeighs(sc, b, to[..n], r, c);
      SendAllLast(sc, b, to, r);
      Distribute(c, SideSum(sc.t, b, to[..n]), |Side(sc.t, b, to[n])|);
    }
  }

  /** r and a place for z in an SGS weigh at most c for each gateway behind z. */
  ghost predicate Affordable(sc: Scale, b: Node, z: Node, r: Rpdu, c: nat) {
    Weight(sc, b, z, r) + 1 <= Times(c, |Side(sc.t, b, z)|)
  }

  lemma SendAllLast(sc: Scale, b: Node, to: seq<Node>, r: Rpdu)
    requires to != []
    ensures var n := |to| - 1;
      SendsWeight(sc, b, SendAll(to, r)) == SendsWeight(sc, b, SendAll(to[..n], r)) + Weight(sc, b, to[n], r)
  {
    var n := |to| - 1;
    assert SendAll(to, r)[..n] == SendAll(to[..n], r);
  }

  /** p is asserted to neighbours other than `from` only, and at most c is set
      off for every gateway behind them. */
  ghost predicate Spreads(sc: Scale, g: State, p: Petition, from: Node, c: nat) {
    forall z :: z in AssertionSet(g, p) && Assertable(g, p) ==>
      z != from && Adj(sc.t, g.me, z) && Affordable(sc, g.me, z, Assertion(p.key), c)
  }

  lemma AssertedWeighs(sc: Scale, g: State, p: Petition, n: nat)
    requires NoRepeats(g.declared)
    requires Assertable(g, p) ==>
      SendsWeight(sc, g.me, SendAll(AssertionSet(g, p), Assertion(p.key))) + |AssertionSet(g, p)| <= n
    ensures var a := AssertPetition(g, p); SendsWeight(sc, g.me, a.1) + |a.0.sgs| <= |p.sgs| + n
  {
    if Assertable(g, p) {
      AssertionSetNoRepeats(g, p);
      NotedOnce(p, AssertionSet(g, p));
    }
  }

  lemma NotedOnce(p: Petition, to: seq<Node>)
    requires NoRepeats(to) && forall x :: x in to ==> x !in p.sgs
    ensures |p.(sgs := Union(p.sgs, to)).sgs| == |p.sgs| + |to|
  {
    UnionDisjoint(p.sgs, to);
  }

  lemma AllWeigh(sc: Scale, a: Node, b: Node, to: seq<Node>, r: Rpdu, c: nat)
    requires Valid(sc.t) && Adj(sc.t, a, b) && NoRepeats(to) && a !in to
    requires forall z :: z in to ==> Adj(sc.t, b, z) && Affordable(sc, b, z, r, c)
    ensures |Side(sc.t, a, b)| >= 1
    ensures SendsWeight(sc, b, SendAll(to, r)) + |to| <= Times(c, |Side(sc.t, a, b)| - 1)
  {
    SendAllWeighs(sc, b, to, r, c);
    SidesFit(sc.t, a, b, to);
    Grows(c, SideSum(sc.t, b, to), |Side(sc.t, a, b)| - 1);
  }

  lemma AssertWeighs(sc: Scale, g: State, i: nat, from: Node, c: nat)
    requires Valid(sc.t) && Adj(sc.t, from, g.me) && i < |g.petitions| && NoRepeats(g.declared)
    requires Spreads(sc, g, g.petitions[i], from, c)
    ensures |Side(sc.t, from, g.me)| >= 1
    ensures SendsWeight(sc, g.me, AssertAt(g, i).sends) + Asks(AssertAt(g, i).state.petitions) <=
      Asks(g.petitions) + Times(c, |Side(sc.t, from, g.me)| - 1)
  {
    var p := g.petitions[i];
    SideFits(sc.t, from, g.me);
    if Assertable(g, p) {
      AssertionSetNoRepeats(g, p);
      AllWeigh(sc, from, g.me, AssertionSet(g, p), Assertion(p.key), c);
    }
    AssertedWeighs(sc, g, p, Times(c, |Side(sc.t, from, g.me)| - 1));
    AsksUpdate(g.petitions, i, AssertPetition(g, p).0);
  }

  lemma {:induction false} UnionDisjoint(a: seq<Node>, b: seq<Node>)
    requires NoRepeats(b) && forall x :: x in b ==> x !in a
    ensures |Union(a, b)| == |a| + |b|
  {
    if b != [] {
      var n := |b| - 1;
      UnionDisjoint(a, b[..n]);
      assert b[n] !in b[..n];
    }
  }

  /** A walk weighs what its steps weigh. */
  lemma {:induction false} WalkWeighs(sc: Scale, a: Node, ps: seq<Petition>, f: Rule, c: nat, n: nat)
    requires n <= |ps|
    requires forall i :: 0 <= i < |ps| ==> |f(ps[i]).0.sgs| + SendsWeight(sc, a, f(ps[i]).1) <= |ps[i].sgs| + c
    ensures Asks(Walk(ps, f).0[..n]) + SendsWeight(sc, a, Petitions.Joined(Replies(ps, f), n)) <=
      Asks(ps[..n]) + Times(c, n)
  {
    if n > 0 {
      WalkWeighs(sc, a, ps, f, c, n - 1);
      var w := Walk(ps, f).0;
      assert w[..n][..n-1] == w[..n-1] && ps[..n][..n-1] == ps[..n-1];
      SendsConcat(sc, a, Petitions.Joined(Replies(ps, f), n - 1), f(ps[n-1]).1);
      Distribute(c, n - 1, 1);
    }
  }

  lemma WholeWalkWeighs(sc: Scale, a: Node, ps: seq<Petition>, f: Rule, c: nat)
    requires forall i :: 0 <= i < |ps| ==> |f(ps[i]).0.sgs| + SendsWeight(sc, a, f(ps[i]).1) <= |ps[i].sgs| + c
    ensures Asks(Walk(ps, f).0) + SendsWeight(sc, a, Walk(ps, f).1) <= Asks(ps) + Times(c, |ps|)
  {
    WalkWeighs(sc, a, ps, f, c, |ps|);
    assert Walk(ps, f).0[..|ps|] == Walk(ps, f).0 && ps[..|ps|] == ps;
  }

  // ---- Receiving an assertion --------------------------------------------------------------------

  lemma EnrolAsks(g: State, from: Node, k: Key)
    ensures Asks(Enrol(g, from, k).petitions) == Asks(g.petitions)
    ensures |Enrol(g, from, k).petitions| <= |g.petitions| + 1
  {
    var i, p := Find(g.petitions, k), Lookup(g.petitions, k);
    var p' := p.(dgs := p.dgs + [from]);
    if i < |g.petitions| { AsksUpdate(g.petitions, i, p'); } else { AsksAppend(g.petitions, p'); }
  }

  /** Who has to be asked has been asked. */
  lemma AlreadyAsked(t: Tree, g: State, k: Key, y: Node)
    requires Sound(t, g)
    ensures var p := Lookup(g.petitions, k);
      y in Domain(g, p) && (p.dms != [] || (p.dgs != [] && !(|p.dgs| == 1 && y in p.dgs))) ==> y in p.sgs
  {
    assert KeyOk(t, g, k);
    var p := Lookup(g.petitions, k);
    if p.dgs != [] { assert p.dgs[0] in p.dgs; }
    if |p.dgs| > 1 { assert p.dgs[1] in p.dgs && p.dgs[0] != p.dgs[1]; }
  }

  /** An assertion is not sent back to where it came from. */
  lemma NotBack(t: Tree, g: State, from: Node, k: Key, g1: State)
    requires Sound(t, g) && Expected(t, g, from, k) && Enrols(Greet(g, from, k), from, k, g1)
    ensures var p := Lookup(g1.petitions, k); Assertable(g1, p) ==> from !in AssertionSet(g1, p)
  {
    var p, q := Lookup(g1.petitions, k), Lookup(g.petitions, k);
    assert KeyOk(t, g, k) && Domain(g, p) == Domain(g, q);
    AlreadyAsked(t, g, k, from);
    if q.dgs != [] { assert q.dgs[0] in q.dgs; }
    if from in Added(g1, from, k, p) {
      AddedInDomain(g1, from, k, p, from);
      DomainGrows(t, g, from, k, g1, p, from);
    }
  }

  /** What is passed on to the neighbour that asserted k. */
  lemma PassedOn(t: Tree, g: State, from: Node, k: Key, g1: State, p: Petition)
    requires Sound(t, g) && Expected(t, g, from, k) && Enrols(Greet(g, from, k), from, k, g1)
    requires p in g1.petitions && p.key != k && Assertable(g1, p) && from in AssertionSet(g1, p)
    ensures p == Lookup(g.petitions, p.key) && from !in p.sgs
    ensures k != OwnKey(from) ==> p.key.subject >= 0
  {
    ListedIsLooked(g1.petitions, p);
    assert KeyOk(t, g, p.key);
    AddedInDomain(g1, from, p.key, p, from);
    AlreadyAsked(t, g, p.key, from);
  }

  /** What a passed petition weighs at most. */
  ghost function PassLimit(sc: Scale, from: Node, k: Key): (c: nat) {
    if k == OwnKey(from) then Times(Unit(sc), Size(sc)) else Times(2, Size(sc))
  }

  ghost function PassTotal(sc: Scale, from: Node, k: Key): (n: nat) {
    if k.subject < 0 then Times(PassLimit(sc, from, k), sc.k) else 0
  }

  lemma PassWeight(sc: Scale, g: State, from: Node, k: Key, key: Key)
    requires Valid(sc.t) && Adj(sc.t, g.me, from)
    requires from in sc.dead || key.subject >= 0 || (k == OwnKey(from) && key != OwnKey(g.me))
    ensures Weight(sc, g.me, from, Assertion(key)) + 1 <= PassLimit(sc, from, k)
  {
    SideFits(sc.t, g.me, from);
    var n := |Side(sc.t, g.me, from)|;
    Grows(2, n, Size(sc));
    Grows(Unit(sc), n, Size(sc));
    GrowsLeft(2, Unit(sc), Size(sc));
    Grows(Unit(sc), 1, n);
  }

  /** The gateway has asked each neighbour still there for its own declaration. */
  ghost predicate OwnAsked(t: Tree, g: State, dead: set<Node>) {
    forall y :: Adj(t, g.me, y) && y !in dead ==> y in Lookup(g.petitions, OwnKey(g.me)).sgs
  }

  lemma PassWeighs(sc: Scale, g: State, from: Node, k: Key, g1: State, p: Petition)
    requires Sound(sc.t, g) && Expected(sc.t, g, from, k) && Enrols(Greet(g, from, k), from, k, g1)
    requires OwnAsked(sc.t, g, sc.dead) && p in g1.petitions
    ensures var q := PassOn(g1, from, k, p);
      |q.0.sgs| + SendsWeight(sc, g.me, q.1) <= |p.sgs| + PassLimit(sc, from, k)
  {
    var q := PassOn(g1, from, k, p);
    if p.key != k && Assertable(g1, p) && from in AssertionSet(g1, p) {
      PassedOn(sc.t, g, from, k, g1, p);
      PassWeight(sc, g, from, k, p.key);
      assert q.1[..0] == [];
    }
  }

  lemma PassAllWeighs(sc: Scale, g: State, from: Node, k: Key, g1: State)
    requires Sound(sc.t, g) && Expected(sc.t, g, from, k) && Enrols(Greet(g, from, k), from, k, g1)
    requires OwnAsked(sc.t, g, sc.dead) && |g1.petitions| <= sc.k
    ensures var e := PassAll(g1, from, k);
      SendsWeight(sc, g.me, e.sends) + Asks(e.state.petitions) <=
      Asks(g1.petitions) + PassTotal(sc, from, k)
  {
    if k.subject < 0 {
      var f, c := PassOnRule(g1, from, k), PassLimit(sc, from, k);
      forall i | 0 <= i < |g1.petitions|
        ensures |f(g1.petitions[i]).0.sgs| + SendsWeight(sc, g.me, f(g1.petitions[i]).1) <= |g1.petitions[i].sgs| + c {
        assert f(g1.petitions[i]) == PassOn(g1, from, k, g1.petitions[i]);
        PassWeighs(sc, g, from, k, g1, g1.petitions[i]);
      }
      WholeWalkWeighs(sc, g.me, g1.petitions, f, c);
      Grows(c, |g1.petitions|, sc.k);
    }
  }

  /** What an asserted petition sets off per gateway. */
  ghost function Rate(sc: Scale, k: Key): (c: nat) {
    if k.subject < 0 then Unit(sc) else 2
  }

  lemma KeySpreads(sc: Scale, g: State, from: Node, k: Key, g1: State, g2: State)
    requires Sound(sc.t, g) && Expected(sc.t, g, from, k) && Enrols(Greet(g, from, k), from, k, g1)
    requires g2 == g1.(petitions := g2.petitions)
    requires AssertionSet(g2, Lookup(g1.petitions, k)) == AssertionSet(g1, Lookup(g1.petitions, k))
    ensures Spreads(sc, g2, Lookup(g1.petitions, k), from, Rate(sc, k))
  {
    var p := Lookup(g1.petitions, k);
    NotBack(sc.t, g, from, k, g1);
    forall z | z in AssertionSet(g2, p) && Assertable(g2, p)
      ensures z != from && Adj(sc.t, g.me, z)
      ensures Affordable(sc, g.me, z, Assertion(k), Rate(sc, k)) {
      DomainDeclared(sc.t, g, from, k, g1, p, z);
      SideFits(sc.t, g.me, z);
      Grows(Rate(sc, k), 1, |Side(sc.t, g.me, z)|);
    }
  }

  /** Handling an assertion weighs less than the assertion. */
  lemma AssertionWeighs(sc: Scale, g: State, from: Node, k: Key)
    requires Sound(sc.t, g) && Expected(sc.t, g, from, k) && OwnAsked(sc.t, g, sc.dead) && g.me !in sc.dead
    requires |Enrol(Greet(g, from, k), from, k).petitions| <= sc.k
    ensures var e := ReceiveAssertion(g, from, k);
      SendsWeight(sc, g.me, e.sends) + Asks(e.state.petitions) + 1 <=
      Weight(sc, from, g.me, Assertion(k)) + Asks(g.petitions)
  {
    var g0 := Greet(g, from, k);
    EnrolEnrols(g0, from, k);
    EnrolAsks(g0, from, k);
    AssertionParts(sc, g, from, k, Enrol(g0, from, k), Find(g0.petitions, k));
    AdjFacts(sc.t, g.me, from);
    Afford(sc, g, from, k);
    assert ReceiveAssertion(g, from, k) == HandleAssertion(g0, from, k);
  }

  /** Passing other petitions on, then asserting this one. */
  lemma AssertionParts(sc: Scale, g: State, from: Node, k: Key, g1: State, i: nat)
    requires Sound(sc.t, g) && Expected(sc.t, g, from, k) && OwnAsked(sc.t, g, sc.dead)
    requires Enrols(Greet(g, from, k), from, k, g1) && |g1.petitions| <= sc.k
    requires i < |g1.petitions| && g1.petitions[i].key == k
    ensures |Side(sc.t, from, g.me)| >= 1
    ensures var e1 := PassAll(g1, from, k);
      && i < |e1.state.petitions|
      && var a := AssertAt(e1.state, i);
         SendsWeight(sc, g.me, e1.sends + a.sends) + Asks(a.state.petitions) <=
         Asks(g1.petitions) + Times(Rate(sc, k), |Side(sc.t, from, g.me)| - 1)
         + PassTotal(sc, from, k)
  {
    PassAllWeighs(sc, g, from, k, g1);
    PassedLeaves(g1, from, k, i);
    ThenAsserted(sc, g, from, k, g1, i, PassAll(g1, from, k), PassTotal(sc, from, k));
  }

  lemma ThenAsserted(sc: Scale, g: State, from: Node, k: Key, g1: State, i: nat, e1: Effect, limit: nat)
    requires Sound(sc.t, g) && Expected(sc.t, g, from, k) && Enrols(Greet(g, from, k), from, k, g1)
    requires SendsWeight(sc, g.me, e1.sends) + Asks(e1.state.petitions) <= Asks(g1.petitions) + limit
    requires e1.state == g1.(petitions := e1.state.petitions) && i < |e1.state.petitions|
    requires e1.state.petitions[i] == Lookup(g1.petitions, k)
    requires AssertionSet(e1.state, Lookup(g1.petitions, k)) == AssertionSet(g1, Lookup(g1.petitions, k))
    ensures |Side(sc.t, from, g.me)| >= 1
    ensures var a := AssertAt(e1.state, i);
      SendsWeight(sc, g.me, e1.sends + a.sends) + Asks(a.state.petitions) <=
      Asks(g1.petitions) + Times(Rate(sc, k), |Side(sc.t, from, g.me)| - 1) + limit
  {
    var g2 := e1.state;
    KeySpreads(sc, g, from, k, g1, g2);
    AdjFacts(sc.t, g.me, from);
    assert Spreads(sc, g2, g2.petitions[i], from, Rate(sc, k)) && NoRepeats(g2.declared);
    AssertWeighs(sc, g2, i, from, Rate(sc, k));
    AddUp(sc, g.me, e1.sends, AssertAt(g2, i).sends, Asks(g1.petitions), Asks(g2.petitions),
      Asks(AssertAt(g2, i).state.petitions), Times(Rate(sc, k), |Side(sc.t, from, g.me)| - 1), limit);
  }

  lemma AddUp(sc: Scale, a: Node, s: seq<Send>, s': seq<Send>, asks0: nat, asks1: nat, asks2: nat, r: nat, limit: nat)
    requires SendsWeight(sc, a, s) + asks1 <= asks0 + limit && SendsWeight(sc, a, s') + asks2 <= asks1 + r
    ensures SendsWeight(sc, a, s + s') + asks2 <= asks0 + r + limit
  {
    SendsConcat(sc, a, s, s');
  }

  lemma PassedLeaves(g1: State, from: Node, k: Key, i: nat)
    requires UniqueKeys(g1.petitions) && i < |g1.petitions| && g1.petitions[i].key == k
    ensures var g2 := PassAll(g1, from, k).state;
      && g2 == g1.(petitions := g2.petitions) && i < |g2.petitions|
      && g2.petitions[i] == Lookup(g1.petitions, k)
      && AssertionSet(g2, g2.petitions[i]) == AssertionSet(g1, g2.petitions[i])
  {
    LookupAt(g1.petitions, i);
    if k.subject < 0 {
      PassOnWalk(g1, from, k);
      var f := PassOnRule(g1, from, k);
      assert Walk(g1.petitions, f).0[i] == f(g1.petitions[i]).0;
    }
  }

  /** The arithmetic of the weights. */
  lemma Afford(sc: Scale, g: State, from: Node, k: Key)
    requires Valid(sc.t) && Adj(sc.t, from, g.me) && g.me !in sc.dead
    ensures |Side(sc.t, from, g.me)| >= 1
    ensures Times(Rate(sc, k), |Side(sc.t, from, g.me)| - 1)
      + PassTotal(sc, from, k) + 1 <= Weight(sc, from, g.me, Assertion(k))
  {
    SideFits(sc.t, from, g.me);
    var n := |Side(sc.t, from, g.me)|;
    Distribute(Rate(sc, k), n - 1, 1);
    Twice(Size(sc));
    if k == OwnKey(from) {
      Grows(Unit(sc), n - 1, Size(sc));
      Distribute(Times(Unit(sc), Size(sc)), 1, sc.k);
    }
  }

  // ---- Receiving a cancellation ------------------------------------------------------------------

  lemma {:induction false} CancelsWeigh(sc: Scale, a: Node, to: seq<Node>, k: Key)
    ensures SendsWeight(sc, a, SendAll(to, Cancellation(k))) <= |to|
  {
    if to != [] {
      CancelsWeigh(sc, a, to[..|to|-1], k);
      SendAllLast(sc, a, to, Cancellation(k));
    }
  }

  lemma IdleWeighs(sc: Scale, g: State, p: Petition)
    requires g.tree
    ensures var c := CancelIfIdle(g, p); SendsWeight(sc, g.me, c.1) + |c.0.sgs| <= |p.sgs|
  {
    CancelsWeigh(sc, g.me, p.sgs, p.key);
  }

  lemma RetractWeighs(sc: Scale, g: State, from: Node, p: Petition)
    requires g.tree && from in sc.dead
    ensures var r := Retract(g, from, p); |r.0.sgs| + SendsWeight(sc, g.me, r.1) <= |p.sgs|
  {
    var p' := p.(sgs := RemoveFirst(p.sgs, from), dgs := RemoveFirst(p.dgs, from));
    var reply := if from in p.sgs || from in p.dgs then [Send(from, Cancellation(p.key))] else [];
    IdleWeighs(sc, g, p');
    SendsConcat(sc, g.me, reply, CancelIfIdle(g, p').1);
    assert reply != [] ==> reply[..0] == [];
    if from in p.sgs { assert |p'.sgs| == |p.sgs| - 1; }
  }

  lemma {:induction false} Nothing(n: nat)
    ensures Times(0, n) == 0
  {
    if n > 0 { Nothing(n - 1); }
  }

  lemma RetractionWeighs(sc: Scale, g: State, from: Node)
    requires g.tree && from in sc.dead
    ensures var w := Walk(g.petitions, RetractRule(g, from));
      SendsWeight(sc, g.me, w.1) + Asks(w.0) <= Asks(g.petitions)
  {
    var f := RetractRule(g, from);
    forall i | 0 <= i < |g.petitions|
      ensures |f(g.petitions[i]).0.sgs| + SendsWeight(sc, g.me, f(g.petitions[i]).1) <= |g.petitions[i].sgs| {
      assert f(g.petitions[i]) == Retract(g, from, g.petitions[i]);
      RetractWeighs(sc, g, from, g.petitions[i]);
    }
    WholeWalkWeighs(sc, g.me, g.petitions, f, 0);
    Nothing(|g.petitions|);
  }

  lemma WithdrawAsks(g: State, from: Node, k: Key)
    ensures Asks(Withdraw(g, from, k).petitions) == Asks(g.petitions)
    ensures |Withdraw(g, from, k).petitions| == |g.petitions|
  {
    var i, p := Find(g.petitions, k), Lookup(g.petitions, k);
    if i < |g.petitions| { AsksUpdate(g.petitions, i, p.(dgs := RemoveFirst(p.dgs, from))); }
  }

  /** Handling a cancellation weighs less than the cancellation. */
  lemma CancellationWeighs(sc: Scale, g: State, from: Node, k: Key)
    requires g.tree && (k.subject == Pseudo(from) ==> from in sc.dead)
    ensures var e := HandleCancellation(g, from, k);
      SendsWeight(sc, g.me, e.sends) + Asks(e.state.petitions) <= Asks(g.petitions)
  {
    var i := Find(g.petitions, k);
    if i < |g.petitions| && from in g.petitions[i].dgs {
      WithdrawAsks(g, from, k);
      var g1 := Withdraw(g, from, k);
      if k.subject != Pseudo(from) {
        IdleWeighs(sc, g1, g1.petitions[i]);
        AsksUpdate(g1.petitions, i, CancelIfIdle(g1, g1.petitions[i]).0);
      } else {
        RetractionWeighs(sc, g1, from);
      }
    }
  }

  // ---- How many petitions there are ----------------------------------------------------------------

  ghost predicate KeysIn(ps: seq<Petition>, ks: set<Key>) {
    forall p :: p in ps ==> p.key in ks
  }

  ghost predicate SentIn(sends: seq<Send>, ks: set<Key>) {
    forall s :: s in sends ==> s.rpdu.key in ks
  }

  lemma {:induction false} FewPetitions(ps: seq<Petition>, ks: set<Key>)
    requires UniqueKeys(ps) && KeysIn(ps, ks)
    ensures |ps| <= |ks|
  {
    if ps != [] {
      var n := |ps| - 1;
      assert ps[n] in ps;
      forall p | p in ps[..n] ensures p.key in ks - {ps[n].key} {
        var i :| 0 <= i < n && ps[i] == p;
        assert ps[i] in ps;
      }
      FewPetitions(ps[..n], ks - {ps[n].key});
    }
  }

  lemma UpdateKeys(ps: seq<Petition>, i: nat, p: Petition, ks: set<Key>)
    requires KeysIn(ps, ks) && i < |ps| && p.key in ks
    ensures KeysIn(ps[i := p], ks)
  {
    forall q | q in ps[i := p] ensures q.key in ks {
      if q != p { assert q in ps; }
    }
  }

  lemma {:induction false} JoinedIn(lists: seq<seq<Send>>, n: nat, ks: set<Key>)
    requires n <= |lists| && forall i :: 0 <= i < |lists| ==> SentIn(lists[i], ks)
    ensures SentIn(Petitions.Joined(lists, n), ks)
  {
    if n > 0 { JoinedIn(lists, n - 1, ks); }
  }

  lemma WalkKeys(ps: seq<Petition>, f: Rule, ks: set<Key>)
    requires PerPetition(f) && KeysIn(ps, ks)
    ensures KeysIn(Walk(ps, f).0, ks) && SentIn(Walk(ps, f).1, ks)
  {
    var w, replies := Walk(ps, f), Replies(ps, f);
    forall p | p in w.0 ensures p.key in ks {
      var i :| 0 <= i < |w.0| && w.0[i] == p;
      assert ps[i] in ps && w.0[i] == f(ps[i]).0;
    }
    forall i | 0 <= i < |replies| ensures SentIn(replies[i], ks) {
      assert ps[i] in ps && replies[i] == f(ps[i]).1;
    }
    JoinedIn(replies, |replies|, ks);
  }

  lemma EnrolKeys(g: State, from: Node, k: Key, ks: set<Key>)
    requires KeysIn(g.petitions, ks) && k in ks
    ensures KeysIn(Enrol(g, from, k).petitions, ks)
  {
    var i, p := Find(g.petitions, k), Lookup(g.petitions, k);
    var p' := p.(dgs := p.dgs + [from]);
    if i < |g.petitions| { UpdateKeys(g.petitions, i, p', ks); }
  }

  lemma AssertAtKeys(g: State, i: nat, ks: set<Key>)
    requires KeysIn(g.petitions, ks) && i < |g.petitions|
    ensures KeysIn(AssertAt(g, i).state.petitions, ks) && SentIn(AssertAt(g, i).sends, ks)
  {
    assert g.petitions[i] in g.petitions;
    UpdateKeys(g.petitions, i, AssertPetition(g, g.petitions[i]).0, ks);
  }

  lemma AssertionKeys(g: State, from: Node, k: Key, ks: set<Key>)
    requires KeysIn(g.petitions, ks) && k in ks
    ensures KeysIn(HandleAssertion(g, from, k).state.petitions, ks) && SentIn(HandleAssertion(g, from, k).sends, ks)
  {
    EnrolKeys(g, from, k, ks);
    var g1 := Enrol(g, from, k);
    PassOnRuleFits(g1, from, k);
    WalkKeys(g1.petitions, PassOnRule(g1, from, k), ks);
    var e := PassAll(g1, from, k);
    PassAllKeepsAskers(g1, from, k);
    AssertAtKeys(e.state, Find(g.petitions, k), ks);
  }

  lemma CancellationKeysIn(g: State, from: Node, k: Key, ks: set<Key>)
    requires KeysIn(g.petitions, ks)
    ensures KeysIn(HandleCancellation(g, from, k).state.petitions, ks)
    ensures SentIn(HandleCancellation(g, from, k).sends, ks)
  {
    var i := Find(g.petitions, k);
    if i < |g.petitions| && from in g.petitions[i].dgs {
      var g1 := Withdraw(g, from, k);
      assert g.petitions[i] in g.petitions;
      UpdateKeys(g.petitions, i, g1.petitions[i], ks);
      if k.subject != Pseudo(from) {
        UpdateKeys(g1.petitions, i, CancelIfIdle(g1, g1.petitions[i]).0, ks);
      } else {
        RetractRuleFits(g1, from);
        WalkKeys(g1.petitions, RetractRule(g1, from), ks);
      }
    }
  }
}
