/** The exchange of petitions comes to rest: each delivery makes the network
    lighter. */
module Settling {
  import opened Lists
  import opened Topology
  import opened Petitions
  import opened Effects
  import opened Soundness
  import opened Shrinking
  import opened Links
  import opened Network
  import opened Delivery
  import opened Loads
  import opened Weights

  /** The weights of RPDUs, and a place in an SGS weighing one. */
  ghost function Of(sc: Scale): (m: Measure) {
    Measure(Nodes(sc.t),
            (a: Node, b: Node, r: Rpdu) => Weight(sc, a, b, r), (g: State) => Asks(g.petitions))
  }

  lemma {:induction false} SentIs(sc: Scale, a: Node, sends: seq<Send>)
    ensures Sent(Of(sc), a, sends) == SendsWeight(sc, a, sends)
  {
    if sends != [] { SentIs(sc, a, sends[..|sends|-1]); }
  }

  // ---- Every gateway keeps asking for its own declaration ---------------------------------------------

  ghost predicate AllOwnAsked(t: Tree, net: Net) {
    forall x :: x in net.gates && x !in net.dead ==> OwnAsked(t, net.gates[x], net.dead)
  }

  lemma OwnAskedAtStart(t: Tree, net: Net)
    requires Init(t, net)
    ensures AllOwnAsked(t, net)
  {
    forall x | x in net.gates ensures OwnAsked(t, net.gates[x], net.dead) {
      var self, neighbors :| Started(t, net, x, self, neighbors);
    }
  }

  ghost predicate KeepsOwn(g: State, g': State, dead: set<Node>) {
    forall y :: y !in dead && y in Lookup(g.petitions, OwnKey(g.me)).sgs ==> y in Lookup(g'.petitions, OwnKey(g.me)).sgs
  }

  lemma DeliveryKeepsOwn(t: Tree, net: Net, f: Node, x: Node)
    requires Inv(t, net) && Enabled(net, Deliver(f, x))
    ensures KeepsOwn(net.gates[x], Receive(net.gates[x], f, net.links[(f, x)][0]).state, net.dead)
  {
    AdjFacts(t, f, x);
    var q, g := net.links[(f, x)], net.gates[x];
    assert LinkOk(t, net, f, x);
    HeadIsExpected(t, net.gates[f], q, g, f in net.dead);
    var k := q[0].key;
    if q[0].Assertion? {
      AssertionKeepsOwn(t, g, f, k, net.dead);
    } else {
      HandleCancellationCancels(t, g, f, k);
      CancelledKeepsOwn(g, f, k, HandleCancellation(g, f, k), net.dead);
    }
  }

  lemma CancelledKeepsOwn(g: State, f: Node, k: Key, e: Effect, dead: set<Node>)
    requires Cancelled(g, f, k, k == OwnKey(f), e) && (k == OwnKey(f) ==> f in dead)
    ensures KeepsOwn(g, e.state, dead)
  {
    forall y | y !in dead && y in Lookup(g.petitions, OwnKey(g.me)).sgs
      ensures y in Lookup(e.state.petitions, OwnKey(g.me)).sgs {
      assert CancelledAt(g, f, k, k == OwnKey(f), e, OwnKey(g.me), y);
    }
  }

  lemma AssertionKeepsOwn(t: Tree, g: State, from: Node, k: Key, dead: set<Node>)
    requires Sound(t, g) && Expected(t, g, from, k)
    ensures KeepsOwn(g, ReceiveAssertion(g, from, k).state, dead)
  {
    var g0 := Greet(g, from, k);
    EnrolEnrols(g0, from, k);
    HandleAssertionAsserts(g0, from, k);
    AssertedKeepsOwn(g, from, k, Enrol(g0, from, k), HandleAssertion(g0, from, k), dead);
    assert ReceiveAssertion(g, from, k) == HandleAssertion(g0, from, k);
  }

  lemma AssertedKeepsOwn(g: State, from: Node, k: Key, g1: State, e: Effect, dead: set<Node>)
    requires Asserts(g1, from, k, e) && forall k' :: Lookup(g1.petitions, k').sgs == Lookup(g.petitions, k').sgs
    ensures KeepsOwn(g, e.state, dead)
  {
    forall y | y in Lookup(g.petitions, OwnKey(g.me)).sgs ensures y in Lookup(e.state.petitions, OwnKey(g.me)).sgs {
      assert AssertsOne(g1, from, k, e, OwnKey(g.me), y);
    }
  }

  lemma LocalKeepsOwn(t: Tree, g: State, m: ModuleId, k: Key)
    requires Sound(t, g) && k.subject >= 0
    ensures Lookup(AddPetitioner(g, m, k).state.petitions, OwnKey(g.me)) == Lookup(g.petitions, OwnKey(g.me))
    ensures Lookup(RemovePetitioner(g, m, k).state.petitions, OwnKey(g.me)) == Lookup(g.petitions, OwnKey(g.me))
  {
    RemovalAt(t, g, m, k, OwnKey(g.me), g.me);
    if m !in Lookup(g.petitions, k).dms { AdditionAt(t, g, m, k, OwnKey(g.me), g.me); }
  }

  lemma OwnAskedKept(t: Tree, net: Net, ev: Event)
    requires Inv(t, net) && Enabled(net, ev) && AllOwnAsked(t, net)
    ensures AllOwnAsked(t, Next(net, ev))
  {
    var (x, e) := Reaction(net, ev);
    var net' := Next(net, ev);
    assert net'.gates == net.gates[x := e.state] && net.dead <= net'.dead;
    StepKeeps(t, net, ev);
    if !ev.Terminated? {
      assert KeepsOwn(net.gates[x], e.state, net.dead) by {
        match ev
        case Deliver(f, _) => DeliveryKeepsOwn(t, net, f, x);
        case Joined(_, m, k) => LocalKeepsOwn(t, net.gates[x], m, k);
        case Left(_, m, k) => LocalKeepsOwn(t, net.gates[x], m, k);
        case Terminated(_) =>
      }
    }
    forall y | y in net'.gates && y !in net'.dead ensures OwnAsked(t, net'.gates[y], net'.dead) {
      assert OwnAsked(t, net.gates[y], net.dead);
    }
  }

  lemma {:induction false} OwnAskedThroughout(t: Tree, net: Net, evs: seq<Event>)
    requires Inv(t, net) && Legal(net, evs) && AllOwnAsked(t, net)
    ensures AllOwnAsked(t, Exec(net, evs))
    decreases |evs|
  {
    if evs != [] {
      StepKeeps(t, net, evs[0]);
      OwnAskedKept(t, net, evs[0]);
      OwnAskedThroughout(t, Next(net, evs[0]), evs[1..]);
    }
  }

  // ---- Deliveries ------------------------------------------------------------------------------------

  /** All petitions anywhere, and all RPDUs on their way, are about keys in ks. */
  ghost predicate NetKeys(net: Net, ks: set<Key>) {
    && (forall x :: x in net.gates ==> KeysIn(net.gates[x].petitions, ks))
    && (forall l, r :: l in net.links && r in net.links[l] ==> r.key in ks)
  }

  function KeysOf(net: Net): (ks: set<Key>)
    ensures NetKeys(net, ks)
  {
    (set x, p | x in net.gates && p in net.gates[x].petitions :: p.key)
    + (set l, r | l in net.links && r in net.links[l] :: r.key)
  }

  ghost predicate Weighed(sc: Scale, net: Net, ks: set<Key>) {
    Inv(sc.t, net) && AllOwnAsked(sc.t, net) && NetKeys(net, ks) && sc.k == |ks| && sc.dead == net.dead
  }

  lemma {:induction false} SentKeys(sends: seq<Send>, y: Node, ks: set<Key>)
    requires SentIn(sends, ks)
    ensures forall r :: r in To(sends, y) ==> r.key in ks
  {
    if sends != [] {
      assert sends[0] in sends;
      forall s | s in sends[1..] ensures s.rpdu.key in ks { assert s in sends; }
      SentKeys(sends[1..], y, ks);
    }
  }

  lemma DeliveryKeys(net: Net, f: Node, x: Node, ks: set<Key>)
    requires Enabled(net, Deliver(f, x)) && NetKeys(net, ks)
    ensures var e := Receive(net.gates[x], f, net.links[(f, x)][0]);
      KeysIn(e.state.petitions, ks) && SentIn(e.sends, ks)
  {
    var r, g := net.links[(f, x)][0], net.gates[x];
    assert r in net.links[(f, x)] && KeysIn(g.petitions, ks);
    match r
    case Assertion(k) =>
      if k.subject == Pseudo(f) { AssertionKeys(NoteDeclaration(g, f), f, k, ks); }
      else if f in g.declared { AssertionKeys(g, f, k, ks); }
    case Cancellation(k) => CancellationKeysIn(g, f, k, ks);
  }

  lemma DeliveredKeys(net: Net, f: Node, x: Node, ks: set<Key>)
    requires Enabled(net, Deliver(f, x)) && NetKeys(net, ks)
    ensures NetKeys(Next(net, Deliver(f, x)), ks)
  {
    DeliveryKeys(net, f, x, ks);
    var e, net' := Receive(net.gates[x], f, net.links[(f, x)][0]), Next(net, Deliver(f, x));
    forall l, r | l in net'.links && r in net'.links[l] ensures r.key in ks {
      SentKeys(e.sends, l.1, ks);
    }
  }

  /** What the gateway does about a delivery weighs less than what is delivered. */
  lemma DeliveryWeighs(sc: Scale, net: Net, f: Node, x: Node, ks: set<Key>)
    requires Weighed(sc, net, ks) && Enabled(net, Deliver(f, x))
    ensures var r, g := net.links[(f, x)][0], net.gates[x];
      var e := Receive(g, f, r);
      SendsWeight(sc, x, e.sends) + Asks(e.state.petitions) + 1 <= Weight(sc, f, x, r) + Asks(g.petitions)
  {
    AdjFacts(sc.t, f, x);
    var q, g := net.links[(f, x)], net.gates[x];
    assert LinkOk(sc.t, net, f, x);
    HeadIsExpected(sc.t, net.gates[f], q, g, f in net.dead);
    var k := q[0].key;
    if q[0].Assertion? {
      EnrolledFew(sc.t, g, f, k, ks, net, x);
      AssertionWeighs(sc, g, f, k);
    } else {
      CancellationWeighs(sc, g, f, k);
    }
  }

  lemma EnrolledFew(t: Tree, g: State, f: Node, k: Key, ks: set<Key>, net: Net, x: Node)
    requires Sound(t, g) && NetKeys(net, ks) && x in net.gates && g == net.gates[x] && k in ks
    ensures |Enrol(Greet(g, f, k), f, k).petitions| <= |ks|
  {
    var g0 := Greet(g, f, k);
    EnrolEnrols(g0, f, k);
    EnrolKeys(g0, f, k, ks);
    FewPetitions(Enrol(g0, f, k).petitions, ks);
  }

  /** Each delivery makes the network lighter. */
  lemma DeliveryLightens(sc: Scale, net: Net, f: Node, x: Node, ks: set<Key>)
    requires Weighed(sc, net, ks) && Enabled(net, Deliver(f, x))
    ensures Weighed(sc, Next(net, Deliver(f, x)), ks)
    ensures Total(Of(sc), Next(net, Deliver(f, x))) < Total(Of(sc), net)
  {
    var ev := Deliver(f, x);
    var q, g := net.links[(f, x)], net.gates[x];
    var e := Receive(g, f, q[0]);
    var net1 := net.(links := net.links[(f, x) := q[1..]]);
    StepKeeps(sc.t, net, ev);
    OwnAskedKept(sc.t, net, ev);
    DeliveredKeys(net, f, x, ks);
    AdjFacts(sc.t, f, x);
    TakenWeighs(Of(sc), net, f, x);
    PostIsPosted(net1, x, e);
    PostedWeighs(Of(sc), net1, x, e, Next(net, ev));
    SentIs(sc, x, e.sends);
    DeliveryWeighs(sc, net, f, x, ks);
  }

  lemma {:induction false} DeliveriesLighten(sc: Scale, net: Net, evs: seq<Event>, ks: set<Key>)
    requires Weighed(sc, net, ks) && Legal(net, evs) && Deliveries(evs)
    ensures Weighed(sc, Exec(net, evs), ks)
    ensures |evs| + Total(Of(sc), Exec(net, evs)) <= Total(Of(sc), net)
    decreases |evs|
  {
    if evs != [] {
      assert evs[0] in evs;
      DeliveryLightens(sc, net, evs[0].from, evs[0].to, ks);
      DeliveriesLighten(sc, Next(net, evs[0]), evs[1..], ks);
    }
  }

  /** How many deliveries are possible without any other event. */
  ghost function Bound(t: Tree, net: Net): (n: nat) {
    Total(Of(Scale(t, |KeysOf(net)|, net.dead)), net)
  }

  lemma ReachableWeighed(t: Tree, net: Net)
    requires Reachable(t, net)
    ensures Weighed(Scale(t, |KeysOf(net)|, net.dead), net, KeysOf(net))
  {
    ReachableInv(t, net);
    var net0, evs :| Init(t, net0) && Legal(net0, evs) && net == Exec(net0, evs);
    InitInv(t, net0);
    OwnAskedAtStart(t, net0);
    OwnAskedThroughout(t, net0, evs);
  }

  /** From every reachable state, runs of deliveries alone are bounded. */
  lemma DeliveriesAreBounded(t: Tree, net: Net, evs: seq<Event>)
    requires Reachable(t, net) && Legal(net, evs) && Deliveries(evs)
    ensures |evs| <= Bound(t, net)
  {
    ReachableWeighed(t, net);
    DeliveriesLighten(Scale(t, |KeysOf(net)|, net.dead), net, evs, KeysOf(net));
  }

  // ---- Coming to rest -----------------------------------------------------------------------------------

  lemma ReachableNext(t: Tree, net: Net, ev: Event)
    requires Reachable(t, net) && Enabled(net, ev)
    ensures Reachable(t, Next(net, ev))
  {
    var net0, evs :| Init(t, net0) && Legal(net0, evs) && net == Exec(net0, evs);
    LegalAppend(net0, evs, ev);
    ReachableBy(t, net0, evs + [ev], Next(net, ev));
  }

  lemma ReachableBy(t: Tree, net0: Net, evs: seq<Event>, net: Net)
    requires Init(t, net0) && Legal(net0, evs) && net == Exec(net0, evs)
    ensures Reachable(t, net)
  {
  }

  /** From every reachable state deliveries alone lead to one in which nothing
      can be delivered any more, whoever has terminated. */
  lemma Settles(t: Tree, net: Net) returns (evs: seq<Event>)
    requires Reachable(t, net)
    ensures Legal(net, evs) && Deliveries(evs) && Exec(net, evs).dead == net.dead
    ensures Reachable(t, Exec(net, evs)) && Settled(Exec(net, evs))
  {
    ReachableWeighed(t, net);
    evs := Rests(Scale(t, |KeysOf(net)|, net.dead), net, KeysOf(net));
  }

  lemma {:induction false} Rests(sc: Scale, net: Net, ks: set<Key>) returns (evs: seq<Event>)
    requires Reachable(sc.t, net) && Weighed(sc, net, ks)
    ensures Legal(net, evs) && Deliveries(evs) && Exec(net, evs).dead == net.dead
    ensures Reachable(sc.t, Exec(net, evs)) && Settled(Exec(net, evs))
    decreases Total(Of(sc), net)
  {
    if a, b :| Enabled(net, Deliver(a, b)) {
      DeliveryLightens(sc, net, a, b, ks);
      ReachableNext(sc.t, net, Deliver(a, b));
      var rest := Rests(sc, Next(net, Deliver(a, b)), ks);
      evs := [Deliver(a, b)] + rest;
      assert evs[1..] == rest;
    } else {
      evs := [];
    }
  }

  /** If no gateway has terminated, that is rest. */
  lemma ComesToRest(t: Tree, net: Net) returns (evs: seq<Event>)
    requires Reachable(t, net) && net.dead == {}
    ensures Legal(net, evs) && Deliveries(evs) && Quiescent(t, Exec(net, evs))
  {
    evs := Settles(t, net);
    SettledQuiescent(t, Exec(net, evs));
  }

  lemma SettledQuiescent(t: Tree, net: Net)
    requires Reachable(t, net) && Settled(net) && net.dead == {}
    ensures Quiescent(t, net)
  {
    ReachableInv(t, net);
    forall l | l in net.links ensures net.links[l] == [] {
      assert l == (l.0, l.1);
      AdjFacts(t, l.0, l.1);
      assert !Enabled(net, Deliver(l.0, l.1));
    }
  }

  /** When nothing can be delivered any more, neighbours that have not
      terminated are declared and agree about who has asked whom. */
  lemma SettledAgrees(t: Tree, net: Net, a: Node, b: Node, k: Key)
    requires Reachable(t, net) && Settled(net) && Adj(t, a, b) && a !in net.dead && b !in net.dead
    ensures a in net.gates && b in net.gates && a in net.gates[b].declared
    ensures b in Lookup(net.gates[a].petitions, k).sgs <==> a in Lookup(net.gates[b].petitions, k).dgs
  {
    ReachableInv(t, net);
    AdjFacts(t, a, b);
    assert !Enabled(net, Deliver(a, b));
    assert LinkOk(t, net, a, b) && (a, b) in net.links;
    assert AgreeOn(net.gates[a], net.links[(a, b)], net.gates[b], k);
  }

  // ---- There are such networks ------------------------------------------------------------------------

  /** The neighbours of x, in some order. */
  function Neighbors(t: Tree, x: Node): (s: seq<Node>) {
    match t
    case Single(_) => []
    case Attach(rest, leaf, at) =>
      if x == leaf then [at] else Neighbors(rest, x) + if x == at then [leaf] else []
  }

  lemma {:induction false} NeighborsRight(t: Tree, x: Node)
    requires Valid(t)
    ensures NoRepeats(Neighbors(t, x)) && forall y :: y in Neighbors(t, x) <==> Adj(t, x, y)
  {
    match t
    case Single(_) =>
    case Attach(rest, leaf, at) =>
      NeighborsRight(rest, x);
      var s := Neighbors(rest, x);
      forall y | Adj(rest, x, y) ensures x != leaf && y != leaf { AdjFacts(rest, x, y); }
      assert leaf !in s;
      assert x == at ==> Neighbors(t, x) == s + [leaf];
      assert x != at && x != leaf ==> Neighbors(t, x) == s + [];
  }

  /** The network of gateways of a tree, right after their declarations. */
  function Fresh(t: Tree, self: ModuleId): (net: Net) {
    Net(map x | x in Nodes(t) :: Start(x, self, true, Neighbors(t, x)).state,
        map x, y | x in Nodes(t) && y in Nodes(t) && Adj(t, x, y) ::
          (x, y) := To(Start(x, self, true, Neighbors(t, x)).sends, y),
        {})
  }

  lemma FreshIsInit(t: Tree, self: ModuleId)
    requires Valid(t)
    ensures Init(t, Fresh(t, self))
  {
    var net := Fresh(t, self);
    forall a: Node, b: Node ensures (a, b) in net.links <==> Adj(t, a, b) {
      if Adj(t, a, b) { AdjFacts(t, a, b); }
    }
    forall x | x in net.gates ensures Started(t, net, x, self, Neighbors(t, x)) {
      NeighborsRight(t, x);
    }
  }

  /** Every tree of gateways has a state of rest that it comes to from its start. */
  lemma RestExists(t: Tree, self: ModuleId) returns (net: Net)
    requires Valid(t)
    ensures Quiescent(t, net) && net.gates.Keys == Nodes(t)
  {
    FreshIsInit(t, self);
    var net0 := Fresh(t, self);
    assert Legal(net0, []) && Exec(net0, []) == net0;
    var evs := ComesToRest(t, net0);
    net := Exec(net0, evs);
    ReachableInv(t, net);
  }
}
