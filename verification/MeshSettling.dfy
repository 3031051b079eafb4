/** The exchange of petitions in a mesh comes to rest, too.

    A local petition can still be asserted to gateways not asked yet, any other
    can still be cancelled with those that were: so what there is room for at a
    gateway, with every RPDU on its way, shrinks with each delivery. */
module MeshSettling {
  import opened Lists
  import opened Topology
  import opened Petitions
  import opened Effects
  import opened Network
  import opened Loads
  import opened Mesh

  // ---- Weights -----------------------------------------------------------------------------------

  ghost function Missing(living: set<Node>, sgs: seq<Node>): (s: set<Node>) {
    set y | y in living && y !in sgs
  }

  /** Twice what may yet be sent about p. */
  ghost function Room(living: set<Node>, p: Petition): (n: nat) {
    2 * (if p.dms != [] then |Missing(living, p.sgs)| else |p.sgs|)
  }

  ghost function Slack(living: set<Node>, ps: seq<Petition>): (n: nat) {
    if ps == [] then 0 else Slack(living, ps[..|ps|-1]) + Room(living, ps[|ps|-1])
  }

  /** An RPDU weighs one, unless nobody will get it. */
  ghost function Of(nodes: set<Node>, living: set<Node>): (m: Measure) {
    Measure(nodes, (a: Node, b: Node, r: Rpdu) => if b in living then 1 else 0,
            (g: State) => Slack(living, g.petitions))
  }

  lemma {:induction false} SlackUpdate(living: set<Node>, ps: seq<Petition>, i: nat, p: Petition)
    requires i < |ps|
    ensures Slack(living, ps[i := p]) + Room(living, ps[i]) == Slack(living, ps) + Room(living, p)
  {
    var n := |ps| - 1;
    if i < n {
      SlackUpdate(living, ps[..n], i, p);
      assert ps[i := p][..n] == ps[..n][i := p];
    } else {
      assert ps[i := p][..n] == ps[..n];
    }
  }

  lemma SlackAppend(living: set<Node>, ps: seq<Petition>, p: Petition)
    ensures Slack(living, ps + [p]) == Slack(living, ps) + Room(living, p)
  {
    assert (ps + [p])[..|ps|] == ps;
  }

  // ---- One petition --------------------------------------------------------------------------------

  /** What is sent and still has room afterwards is no more than before. */
  ghost predicate Fits(m: Measure, living: set<Node>, a: Node, p: Petition, q: (Petition, seq<Send>)) {
    Sent(m, a, q.1) + Room(living, q.0) <= Room(living, p)
  }

  lemma SentOne(m: Measure, a: Node, s: Send)
    ensures Sent(m, a, [s]) == m.rpdu(a, s.dest, s.rpdu)
  {
    assert [s][..0] == [];
  }

  lemma SendAllLast(to: seq<Node>, r: Rpdu)
    requires to != []
    ensures var n := |to| - 1; SendAll(to, r) == SendAll(to[..n], r) + [Send(to[n], r)]
  {
  }

  /** Each further gateway that is asked is missing no longer. */
  lemma {:induction false} AskedFits(nodes: set<Node>, living: set<Node>, a: Node, sgs: seq<Node>, to: seq<Node>, r: Rpdu)
    requires NoRepeats(to) && forall y :: y in to ==> y !in sgs
    ensures Sent(Of(nodes, living), a, SendAll(to, r)) + |Missing(living, Union(sgs, to))| == |Missing(living, sgs)|
  {
    var m := Of(nodes, living);
    if to == [] {
      assert Missing(living, Union(sgs, to)) == Missing(living, sgs);
    } else {
      var n := |to| - 1;
      assert to == to[..n] + [to[n]] && to[n] !in to[..n];
      AskedFits(nodes, living, a, sgs, to[..n], r);
      SendAllLast(to, r);
      SentConcat(m, a, SendAll(to[..n], r), [Send(to[n], r)]);
      SentOne(m, a, Send(to[n], r));
      assert Missing(living, Union(sgs, to)) == Missing(living, Union(sgs, to[..n])) - {to[n]};
    }
  }

  lemma {:induction false} AtMostOneEach(nodes: set<Node>, living: set<Node>, a: Node, to: seq<Node>, r: Rpdu)
    ensures Sent(Of(nodes, living), a, SendAll(to, r)) <= |to|
  {
    if to != [] {
      var n := |to| - 1;
      AtMostOneEach(nodes, living, a, to[..n], r);
      SendAllLast(to, r);
      SentConcat(Of(nodes, living), a, SendAll(to[..n], r), [Send(to[n], r)]);
      SentOne(Of(nodes, living), a, Send(to[n], r));
    }
  }

  lemma AssertFits(nodes: set<Node>, living: set<Node>, g: State, p: Petition)
    requires !g.tree && NoRepeats(g.declared)
    ensures Fits(Of(nodes, living), living, g.me, p, AssertPetition(g, p))
  {
    if Assertable(g, p) {
      AssertionSetNoRepeats(g, p);
      AskedFits(nodes, living, g.me, p.sgs, AssertionSet(g, p), Assertion(p.key));
    }
  }

  lemma PassFits(nodes: set<Node>, living: set<Node>, g: State, from: Node, k: Key, p: Petition)
    requires !g.tree
    ensures Fits(Of(nodes, living), living, g.me, p, PassOn(g, from, k, p))
  {
    var q := PassOn(g, from, k, p);
    if q.1 != [] {
      SentOne(Of(nodes, living), g.me, q.1[0]);
      assert Missing(living, p.sgs + [from]) == Missing(living, p.sgs) - {from};
    }
  }

  lemma CancelFits(nodes: set<Node>, living: set<Node>, g: State, p: Petition)
    requires !g.tree
    ensures Fits(Of(nodes, living), living, g.me, p, CancelIfIdle(g, p))
  {
    AtMostOneEach(nodes, living, g.me, p.sgs, Cancellation(p.key));
    if |p.dgs| == 1 { SentOne(Of(nodes, living), g.me, Send(p.dgs[0], Cancellation(p.key))); }
  }

  lemma RetractFits(nodes: set<Node>, living: set<Node>, g: State, from: Node, p: Petition)
    requires !g.tree && from !in living
    ensures Fits(Of(nodes, living), living, g.me, p, Retract(g, from, p))
  {
    var m := Of(nodes, living);
    var p' := p.(sgs := RemoveFirst(p.sgs, from), dgs := RemoveFirst(p.dgs, from));
    var c := CancelIfIdle(g, p');
    CancelFits(nodes, living, g, p');
    assert Missing(living, p'.sgs) == Missing(living, p.sgs);
    if from in p.sgs || from in p.dgs {
      SentConcat(m, g.me, [Send(from, Cancellation(p.key))], c.1);
      SentOne(m, g.me, Send(from, Cancellation(p.key)));
    } else {
      assert [] + c.1 == c.1;
    }
  }

  // ---- One gateway ---------------------------------------------------------------------------------

  ghost predicate RuleFits(m: Measure, living: set<Node>, a: Node, f: Rule, p: Petition) {
    Fits(m, living, a, p, f(p))
  }

  lemma {:induction false} WalkFits(m: Measure, living: set<Node>, a: Node, ps: seq<Petition>, f: Rule, n: nat)
    requires n <= |ps| && forall p :: p in ps ==> RuleFits(m, living, a, f, p)
    ensures Sent(m, a, Petitions.Joined(Replies(ps, f), n)) + Slack(living, Walk(ps, f).0[..n]) <= Slack(living, ps[..n])
  {
    if n > 0 {
      WalkFits(m, living, a, ps, f, n - 1);
      var w := Walk(ps, f).0;
      assert w[..n][..n-1] == w[..n-1] && ps[..n][..n-1] == ps[..n-1];
      assert RuleFits(m, living, a, f, ps[n-1]);
      SentConcat(m, a, Petitions.Joined(Replies(ps, f), n - 1), f(ps[n-1]).1);
    }
  }

  lemma WholeWalkFits(m: Measure, living: set<Node>, a: Node, ps: seq<Petition>, f: Rule)
    requires forall p :: p in ps ==> RuleFits(m, living, a, f, p)
    ensures Sent(m, a, Walk(ps, f).1) + Slack(living, Walk(ps, f).0) <= Slack(living, ps)
  {
    WalkFits(m, living, a, ps, f, |ps|);
    assert Walk(ps, f).0[..|ps|] == Walk(ps, f).0 && ps[..|ps|] == ps;
  }

  /** What the gateway sends and has room for afterwards. */
  ghost predicate Shrinks(nodes: set<Node>, living: set<Node>, g: State, e: Effect) {
    Sent(Of(nodes, living), g.me, e.sends) + Slack(living, e.state.petitions) <= Slack(living, g.petitions)
  }

  lemma EnrolSlack(living: set<Node>, g: State, from: Node, k: Key)
    ensures Slack(living, Enrol(g, from, k).petitions) == Slack(living, g.petitions)
  {
    var i, p := Find(g.petitions, k), Lookup(g.petitions, k);
    var p' := p.(dgs := p.dgs + [from]);
    if i < |g.petitions| { SlackUpdate(living, g.petitions, i, p'); } else { SlackAppend(living, g.petitions, p'); }
  }

  lemma PassAllShrinks(nodes: set<Node>, living: set<Node>, g: State, from: Node, k: Key)
    requires !g.tree
    ensures Shrinks(nodes, living, g, PassAll(g, from, k))
    ensures var g' := PassAll(g, from, k).state; g' == g.(petitions := g'.petitions) && |g'.petitions| == |g.petitions|
  {
    var m, f := Of(nodes, living), PassOnRule(g, from, k);
    forall p | p in g.petitions ensures RuleFits(m, living, g.me, f, p) {
      PassFits(nodes, living, g, from, k, p);
      assert f(p) == PassOn(g, from, k, p);
    }
    WholeWalkFits(m, living, g.me, g.petitions, f);
  }

  lemma AssertAtShrinks(nodes: set<Node>, living: set<Node>, g: State, i: nat)
    requires !g.tree && NoRepeats(g.declared) && i < |g.petitions|
    ensures Shrinks(nodes, living, g, AssertAt(g, i))
  {
    AssertFits(nodes, living, g, g.petitions[i]);
    SlackUpdate(living, g.petitions, i, AssertPetition(g, g.petitions[i]).0);
  }

  lemma AssertionShrinks(nodes: set<Node>, living: set<Node>, g: State, from: Node, k: Key)
    requires !g.tree && NoRepeats(g.declared)
    ensures Shrinks(nodes, living, g, HandleAssertion(g, from, k))
  {
    var g1 := Enrol(g, from, k);
    EnrolSlack(living, g, from, k);
    PassAllShrinks(nodes, living, g1, from, k);
    var e := PassAll(g1, from, k);
    AssertAtShrinks(nodes, living, e.state, Find(g.petitions, k));
    SentConcat(Of(nodes, living), g.me, e.sends, AssertAt(e.state, Find(g.petitions, k)).sends);
  }

  lemma WithdrawSlack(living: set<Node>, g: State, from: Node, k: Key)
    ensures Slack(living, Withdraw(g, from, k).petitions) == Slack(living, g.petitions)
  {
    var i, p := Find(g.petitions, k), Lookup(g.petitions, k);
    if i < |g.petitions| { SlackUpdate(living, g.petitions, i, p.(dgs := RemoveFirst(p.dgs, from))); }
  }

  lemma CancellationShrinks(nodes: set<Node>, living: set<Node>, g: State, from: Node, k: Key)
    requires !g.tree && (k.subject == Pseudo(from) ==> from !in living)
    ensures Shrinks(nodes, living, g, HandleCancellation(g, from, k))
  {
    var i := Find(g.petitions, k);
    if i < |g.petitions| && from in g.petitions[i].dgs {
      WithdrawSlack(living, g, from, k);
      var g1 := Withdraw(g, from, k);
      if k.subject != Pseudo(from) {
        CancelFits(nodes, living, g1, g1.petitions[i]);
        SlackUpdate(living, g1.petitions, i, CancelIfIdle(g1, g1.petitions[i]).0);
      } else {
        RetractionShrinks(nodes, living, g1, from);
      }
    }
  }

  lemma RetractionShrinks(nodes: set<Node>, living: set<Node>, g: State, from: Node)
    requires !g.tree && from !in living
    ensures var w := Walk(g.petitions, RetractRule(g, from));
      Sent(Of(nodes, living), g.me, w.1) + Slack(living, w.0) <= Slack(living, g.petitions)
  {
    var m, f := Of(nodes, living), RetractRule(g, from);
    forall p | p in g.petitions ensures RuleFits(m, living, g.me, f, p) {
      RetractFits(nodes, living, g, from, p);
      assert f(p) == Retract(g, from, p);
    }
    WholeWalkFits(m, living, g.me, g.petitions, f);
  }

  lemma ReceivedShrinks(nodes: set<Node>, living: set<Node>, g: State, from: Node, r: Rpdu)
    requires MeshGate(g) && (r.Cancellation? && r.key.subject == Pseudo(from) ==> from !in living)
    ensures Shrinks(nodes, living, g, Receive(g, from, r))
  {
    match r
    case Assertion(k) => AssertedShrinks(nodes, living, g, from, k);
    case Cancellation(k) => CancellationShrinks(nodes, living, g, from, k);
  }

  lemma AssertedShrinks(nodes: set<Node>, living: set<Node>, g: State, from: Node, k: Key)
    requires MeshGate(g)
    ensures Shrinks(nodes, living, g, ReceiveAssertion(g, from, k))
  {
    if k.subject == Pseudo(from) { AssertionShrinks(nodes, living, NoteDeclaration(g, from), from, k); }
    else if from in g.declared { AssertionShrinks(nodes, living, g, from, k); }
  }

  // ---- The network -----------------------------------------------------------------------------------

  ghost function Living(nodes: set<Node>, net: Net): (s: set<Node>) {
    nodes - net.dead
  }

  /** How many deliveries are possible without any other event. */
  ghost function MeshBound(nodes: set<Node>, net: Net): (n: nat) {
    Total(Of(nodes, Living(nodes, net)), net)
  }

  lemma ReactionShrinks(nodes: set<Node>, net: Net, f: Node, x: Node)
    requires MeshInv(nodes, net) && Enabled(net, Deliver(f, x))
    ensures Shrinks(nodes, Living(nodes, net), net.gates[x], Receive(net.gates[x], f, net.links[(f, x)][0]))
    ensures f in nodes && x in Living(nodes, net) && net.gates[x].me == x
  {
    HeadUsual(nodes, net, f, x);
    ReceivedShrinks(nodes, Living(nodes, net), net.gates[x], f, net.links[(f, x)][0]);
  }

  lemma MeshDeliveryLightens(nodes: set<Node>, net: Net, f: Node, x: Node)
    requires MeshInv(nodes, net) && Enabled(net, Deliver(f, x))
    ensures MeshInv(nodes, Next(net, Deliver(f, x))) && Next(net, Deliver(f, x)).dead == net.dead
    ensures MeshBound(nodes, Next(net, Deliver(f, x))) < MeshBound(nodes, net)
  {
    MeshStepKeeps(nodes, net, Deliver(f, x));
    ReactionShrinks(nodes, net, f, x);
    DeliveryPosts(net, f, x);
    Lighter(nodes, net, f, x, Receive(net.gates[x], f, net.links[(f, x)][0]), Next(net, Deliver(f, x)));
  }

  lemma DeliveryPosts(net: Net, f: Node, x: Node)
    requires Enabled(net, Deliver(f, x))
    ensures var q := net.links[(f, x)];
      Posted(net.(links := net.links[(f, x) := q[1..]]), x, Receive(net.gates[x], f, q[0]), Next(net, Deliver(f, x)))
  {
  }

  lemma Lighter(nodes: set<Node>, net: Net, f: Node, x: Node, e: Effect, net': Net)
    requires MeshInv(nodes, net) && Enabled(net, Deliver(f, x)) && net.gates[x].me == x
    requires Shrinks(nodes, Living(nodes, net), net.gates[x], e)
    requires Posted(net.(links := net.links[(f, x) := net.links[(f, x)][1..]]), x, e, net')
    ensures MeshBound(nodes, net') < MeshBound(nodes, net)
  {
    var m, q := Of(nodes, Living(nodes, net)), net.links[(f, x)];
    TakenWeighs(m, net, f, x);
    PostedWeighs(m, net.(links := net.links[(f, x) := q[1..]]), x, e, net');
  }

  lemma {:induction false} MeshDeliveriesLighten(nodes: set<Node>, net: Net, evs: seq<Event>)
    requires MeshInv(nodes, net) && Legal(net, evs) && Deliveries(evs)
    ensures |evs| + MeshBound(nodes, Exec(net, evs)) <= MeshBound(nodes, net)
    decreases |evs|
  {
    if evs != [] {
      assert evs[0] in evs;
      MeshDeliveryLightens(nodes, net, evs[0].from, evs[0].to);
      MeshDeliveriesLighten(nodes, Next(net, evs[0]), evs[1..]);
    }
  }

  /** From every reachable state of a mesh, runs of deliveries alone are
      bounded. */
  lemma MeshDeliveriesAreBounded(nodes: set<Node>, net: Net, evs: seq<Event>)
    requires MeshReachable(nodes, net) && Legal(net, evs) && Deliveries(evs)
    ensures |evs| <= MeshBound(nodes, net)
  {
    MeshReachableInv(nodes, net);
    MeshDeliveriesLighten(nodes, net, evs);
  }

  lemma MeshReachableNext(nodes: set<Node>, net: Net, ev: Event)
    requires MeshReachable(nodes, net) && Enabled(net, ev)
    ensures MeshReachable(nodes, Next(net, ev))
  {
    var net0, evs :| MeshInit(nodes, net0) && Legal(net0, evs) && net == Exec(net0, evs);
    LegalAppend(net0, evs, ev);
  }

  /** And they lead to rest. */
  lemma {:induction false} MeshSettles(nodes: set<Node>, net: Net) returns (evs: seq<Event>)
    requires MeshReachable(nodes, net)
    ensures Legal(net, evs) && Deliveries(evs) && MeshAtRest(nodes, Exec(net, evs)) && Exec(net, evs).dead == net.dead
    decreases MeshBound(nodes, net)
  {
    MeshReachableInv(nodes, net);
    if a, b :| Enabled(net, Deliver(a, b)) {
      MeshDeliveryLightens(nodes, net, a, b);
      MeshReachableNext(nodes, net, Deliver(a, b));
      var rest := MeshSettles(nodes, Next(net, Deliver(a, b)));
      evs := [Deliver(a, b)] + rest;
      assert evs[1..] == rest;
    } else {
      evs := [];
    }
  }

  /** Every set of gateways can be a mesh at rest. */
  lemma MeshRestExists(nodes: set<Node>, self: ModuleId) returns (net: Net)
    ensures MeshAtRest(nodes, net) && net.dead == {}
  {
    FreshMeshIsInit(nodes, self);
    var net0 := FreshMesh(nodes, self);
    assert Legal(net0, []) && Exec(net0, []) == net0;
    var evs := MeshSettles(nodes, net0);
    net := Exec(net0, evs);
  }
}
