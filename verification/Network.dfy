/** The whole RAMS network as a state machine: gateways joined by a tree of
    reliable FIFO links.  Gateways do not restart, and only gateways use
    pseudo-subjects. */
module Network {
  import opened Lists
  import opened Topology
  import opened Petitions
  import opened Effects
  import opened Soundness
  import opened Shrinking
  import opened Links

  datatype Net = Net(gates: map<Node, State>, links: map<(Node, Node), seq<Rpdu>>, dead: set<Node>)

  datatype Event =
    | Deliver(from: Node, to: Node)
    | Joined(at: Node, m: ModuleId, key: Key)
    | Left(at: Node, m: ModuleId, key: Key)
    | Terminated(at: Node)

  ghost predicate Shape(t: Tree, net: Net) {
    && Valid(t) && net.gates.Keys == Nodes(t)
    && (forall a: Node, b: Node :: (a, b) in net.links <==> Adj(t, a, b))
    && (forall x :: x in net.gates ==> net.gates[x].me == x)
  }

  /** The RPDUs that x sends join the queues of its links. */
  function Post(net: Net, x: Node, e: Effect): Net {
    net.(gates := net.gates[x := e.state],
         links := map l | l in net.links :: if l.0 == x then net.links[l] + To(e.sends, l.1) else net.links[l])
  }

  predicate Enabled(net: Net, ev: Event) {
    match ev
    case Deliver(from, to) =>
      to in net.gates && to !in net.dead && (from, to) in net.links && net.links[(from, to)] != []
    case Joined(at, _, k) => at in net.gates && at !in net.dead && k.subject >= 0
    case Left(at, _, k) => at in net.gates && at !in net.dead && k.subject >= 0
    case Terminated(at) => at in net.gates && at !in net.dead
  }

  /** What the gateway at which ev happens does about it. */
  function Reaction(net: Net, ev: Event): (Node, Effect)
    requires Enabled(net, ev)
  {
    match ev
    case Deliver(from, to) => (to, Receive(net.gates[to], from, net.links[(from, to)][0]))
    case Joined(at, m, k) => (at, Subscribe(net.gates[at], m, k))
    case Left(at, m, k) => (at, Unsubscribe(net.gates[at], m, k))
    case Terminated(at) => (at, Terminate(net.gates[at]))
  }

  function Next(net: Net, ev: Event): Net
    requires Enabled(net, ev)
  {
    var (x, e) := Reaction(net, ev);
    var net1 := if ev.Deliver? then net.(links := net.links[(ev.from, ev.to) := net.links[(ev.from, ev.to)][1..]])
                else if ev.Terminated? then net.(dead := net.dead + {ev.at})
                else net;
    Post(net1, x, e)
  }

  /** The state right after every gateway has declared itself to its neighbours. */
  ghost predicate Init(t: Tree, net: Net) {
    && Shape(t, net) && net.dead == {}
    && forall x :: x in net.gates ==> exists self, neighbors :: Started(t, net, x, self, neighbors)
  }

  ghost predicate Started(t: Tree, net: Net, x: Node, self: ModuleId, neighbors: seq<Node>)
    requires Shape(t, net) && x in net.gates
  {
    && NoRepeats(neighbors) && (forall y :: y in neighbors <==> Adj(t, x, y))
    && var e := Start(x, self, true, neighbors);
    && net.gates[x] == e.state
    && forall y :: Adj(t, x, y) ==> net.links[(x, y)] == To(e.sends, y)
  }

  // ---- The invariant -------------------------------------------------------------------

  ghost predicate LinkOk(t: Tree, net: Net, a: Node, b: Node)
    requires Shape(t, net) && Adj(t, a, b) && a in net.gates && b in net.gates
  {
    var q := net.links[(a, b)];
    b !in net.dead && (a !in net.dead || q != []) ==> Agree(t, net.gates[a], q, net.gates[b], a in net.dead)
  }

  ghost predicate Inv(t: Tree, net: Net) {
    && Shape(t, net)
    && (forall x :: x in net.gates && x !in net.dead ==> Sound(t, net.gates[x]))
    && (forall a, b :: Adj(t, a, b) ==> a in net.gates && b in net.gates && LinkOk(t, net, a, b))
  }

  // ---- It holds at the start --------------------------------------------------------------

  lemma StartIsSound(t: Tree, x: Node, self: ModuleId, neighbors: seq<Node>)
    requires Valid(t) && x in Nodes(t) && NoRepeats(neighbors) && forall y :: y in neighbors <==> Adj(t, x, y)
    ensures Sound(t, Start(x, self, true, neighbors).state)
  {
    var g := Start(x, self, true, neighbors).state;
    forall k ensures KeyOk(t, g, k) {
      var p := Lookup(g.petitions, k);
      assert p == if k == OwnKey(x) then g.petitions[0] else Blank(k);
    }
  }

  lemma StartAgrees(t: Tree, a: Node, sa: ModuleId, na: seq<Node>, b: Node, sb: ModuleId, nb: seq<Node>)
    requires Valid(t) && Adj(t, a, b) && NoRepeats(na) && b in na
    ensures var ea := Start(a, sa, true, na);
      Agree(t, ea.state, To(ea.sends, b), Start(b, sb, true, nb).state, false)
  {
    AdjFacts(t, a, b);
    var own := Assertion(OwnKey(a));
    var ga, gb := Start(a, sa, true, na).state, Start(b, sb, true, nb).state;
    SendAllTo(na, own, b);
    assert InFlightOk(t, a, b, own) by { LinkDirection(t, a, b, a); }
    forall k ensures AgreeOn(ga, [own], gb, k) {
      assert About([own], k) == if k == OwnKey(a) then [own] else [];
      assert Lookup(ga.petitions, k) == if k == OwnKey(a) then ga.petitions[0] else Blank(k);
      assert Lookup(gb.petitions, k) == if k == OwnKey(b) then gb.petitions[0] else Blank(k);
    }
  }

  lemma InitInv(t: Tree, net: Net)
    requires Init(t, net)
    ensures Inv(t, net)
  {
    forall x | x in net.gates ensures Sound(t, net.gates[x]) {
      var self, nx :| Started(t, net, x, self, nx);
      StartIsSound(t, x, self, nx);
    }
    forall a, b | Adj(t, a, b) ensures a in net.gates && b in net.gates && LinkOk(t, net, a, b) {
      AdjFacts(t, a, b);
      var sa, na :| Started(t, net, a, sa, na);
      var sb, nb :| Started(t, net, b, sb, nb);
      StartAgrees(t, a, sa, na, b, sb, nb);
    }
  }

  // ---- Every event keeps it -----------------------------------------------------------------

  /** g became e.state by handling r from a neighbour; `retracts` says that r
      takes back the neighbour's declaration. */
  ghost predicate Handled(t: Tree, g: State, from: Node, r: Rpdu, retracts: bool, e: Effect) {
    && GoodStep(t, g, e, if retracts then Some(from) else None)
    && (forall k, y :: (y in Lookup(e.state.petitions, k).dgs
        <==> if y != from then y in Lookup(g.petitions, k).dgs
             else if retracts then false
             else if k == r.key then r.Assertion? else y in Lookup(g.petitions, k).dgs))
    && (forall y :: y != from && y in g.declared ==> y in e.state.declared)
    && (retracts || from in e.state.declared)
    && (forall s :: s in e.sends ==> s.dest in g.declared || s.dest == from)
  }

  lemma HeadHandled(t: Tree, ga: State, q: seq<Rpdu>, g: State, gone: bool)
    requires Sound(t, g) && Agree(t, ga, q, g, gone) && q != [] && Adj(t, g.me, ga.me)
    ensures var retracts := q[0] == Cancellation(OwnKey(ga.me));
      Handled(t, g, ga.me, q[0], retracts, Receive(g, ga.me, q[0])) && (retracts ==> gone && |q| == 1)
  {
    HeadIsExpected(t, ga, q, g, gone);
    var from, k := ga.me, q[0].key;
    var e := Receive(g, from, q[0]);
    if q[0].Assertion? {
      AssertionKeeps(t, g, from, k);
    } else {
      CancellationKeeps(t, g, from, k);
      CancelledHandled(t, g, from, k, e);
    }
  }

  lemma CancelledHandled(t: Tree, g: State, from: Node, k: Key, e: Effect)
    requires Sound(t, g) && from in Lookup(g.petitions, k).dgs
    requires Cancelled(g, from, k, k == OwnKey(from), e) && Sendable(g.declared, e.sends)
    requires GoodStep(t, g, e, if k == OwnKey(from) then Some(from) else None)
    ensures Handled(t, g, from, Cancellation(k), k == OwnKey(from), e)
  {
    var all := k == OwnKey(from);
    forall k', y ensures y in Lookup(e.state.petitions, k').dgs
        <==> y in Lookup(g.petitions, k').dgs && !(y == from && (all || k' == k)) {
      assert CancelledAt(g, from, k, all, e, k', y);
    }
    forall y ensures y in e.state.declared <==> y in g.declared && !(y == from && all) {
      assert CancelledAt(g, from, k, all, e, k, y);
    }
    assert from in g.declared by { assert KeyOk(t, g, k); }
  }

  /** x reacts with e: its links grow, its gateway changes, all else stays. */
  ghost predicate Posted(net1: Net, x: Node, e: Effect, net2: Net)
    requires x in net1.gates
  {
    && net2.dead == net1.dead && net2.links.Keys == net1.links.Keys
    && net2.gates == net1.gates[x := e.state]
    && forall l :: l in net1.links ==>
         net2.links[l] == if l.0 == x then net1.links[l] + To(e.sends, l.1) else net1.links[l]
  }

  lemma DeliverKeeps(t: Tree, net: Net, f: Node, x: Node, e: Effect, net2: Net)
    requires Inv(t, net) && Enabled(net, Deliver(f, x)) && e == Receive(net.gates[x], f, net.links[(f, x)][0])
    requires Posted(net.(links := net.links[(f, x) := net.links[(f, x)][1..]]), x, e, net2)
    ensures Inv(t, net2)
  {
    AdjFacts(t, f, x);
    var q := net.links[(f, x)];
    assert LinkOk(t, net, f, x);
    HeadHandled(t, net.gates[f], q, net.gates[x], f in net.dead);
    DeliveredKeeps(t, net, f, x, e, net2);
  }

  lemma DeliveredKeeps(t: Tree, net: Net, f: Node, x: Node, e: Effect, net2: Net)
    requires Inv(t, net) && Enabled(net, Deliver(f, x)) && Adj(t, x, f)
    requires var q := net.links[(f, x)];
      var retracts := q[0] == Cancellation(OwnKey(f));
      && Handled(t, net.gates[x], f, q[0], retracts, e) && (retracts ==> f in net.dead && |q| == 1)
    requires Posted(net.(links := net.links[(f, x) := net.links[(f, x)][1..]]), x, e, net2)
    ensures Inv(t, net2)
  {
    var q := net.links[(f, x)];
    var retracts := q[0] == Cancellation(OwnKey(f));
    assert Shape(t, net2);
    forall a, b | Adj(t, a, b) ensures a in net2.gates && b in net2.gates && LinkOk(t, net2, a, b) {
      AdjFacts(t, a, b);
      assert LinkOk(t, net, a, b);
      if b !in net.dead && (a !in net.dead || net2.links[(a, b)] != []) {
        if a == x {
          SenderKeeps(t, net.gates[x], e, if retracts then Some(f) else None, net.links[(a, b)], net.gates[b]);
        } else if b == x && a == f {
          ReceiverKeeps(t, net.gates[f], q, net.gates[x], e.state, f in net.dead);
        } else if b == x {
          BystanderKeeps(t, net.gates[a], net.links[(a, b)], net.gates[x], e.state, a in net.dead);
        }
      }
    }
  }

  lemma LocalKeeps(t: Tree, net: Net, x: Node, e: Effect, net2: Net)
    requires Inv(t, net) && x in net.gates && x !in net.dead
    requires GoodStep(t, net.gates[x], e, None) && SameDgs(net.gates[x], e.state)
    requires Posted(net, x, e, net2)
    ensures Inv(t, net2)
  {
    forall a, b | Adj(t, a, b) ensures a in net2.gates && b in net2.gates && LinkOk(t, net2, a, b) {
      AdjFacts(t, a, b);
      assert LinkOk(t, net, a, b);
      if b !in net.dead && (a !in net.dead || net2.links[(a, b)] != []) {
        if a == x {
          SenderKeeps(t, net.gates[x], e, None, net.links[(a, b)], net.gates[b]);
        } else if b == x {
          BystanderKeeps(t, net.gates[a], net.links[(a, b)], net.gates[x], e.state, a in net.dead);
        }
      }
    }
  }

  lemma DepartureKeeps(t: Tree, net: Net, x: Node, net2: Net)
    requires Inv(t, net) && x in net.gates && x !in net.dead
    requires Posted(net.(dead := net.dead + {x}), x, Terminate(net.gates[x]), net2)
    ensures Inv(t, net2)
  {
    var e := Terminate(net.gates[x]);
    TerminationEffect(t, net.gates[x], x, OwnKey(x));
    forall a, b | Adj(t, a, b) ensures a in net2.gates && b in net2.gates && LinkOk(t, net2, a, b) {
      AdjFacts(t, a, b);
      assert LinkOk(t, net, a, b);
      if b !in net2.dead && a == x {
        SenderLeaves(t, net.gates[x], net.links[(x, b)], net.gates[b]);
      }
    }
  }

  lemma PostIsPosted(net: Net, x: Node, e: Effect)
    requires x in net.gates
    ensures Posted(net, x, e, Post(net, x, e))
  {
  }

  /** Each event keeps the invariant, and no gateway ever fails to send. */
  lemma StepKeeps(t: Tree, net: Net, ev: Event)
    requires Inv(t, net) && Enabled(net, ev)
    ensures Inv(t, Next(net, ev))
    ensures var (x, e) := Reaction(net, ev); Sendable(net.gates[x].declared + e.state.declared, e.sends)
  {
    match ev
    case Deliver(f, x) =>
      var e := Receive(net.gates[x], f, net.links[(f, x)][0]);
      var net1 := net.(links := net.links[(f, x) := net.links[(f, x)][1..]]);
      PostIsPosted(net1, x, e);
      DeliverKeeps(t, net, f, x, e, Next(net, ev));
      DeliverSends(t, net, f, x);
    case Joined(x, m, k) =>
      AdditionKeeps(t, net.gates[x], m, k);
      var e := Subscribe(net.gates[x], m, k);
      IdleKeeps(t, net.gates[x]);
      PostIsPosted(net, x, e);
      LocalKeeps(t, net, x, e, Next(net, ev));
    case Left(x, m, k) =>
      RemovalKeeps(t, net.gates[x], m, k);
      var e := Unsubscribe(net.gates[x], m, k);
      IdleKeeps(t, net.gates[x]);
      PostIsPosted(net, x, e);
      LocalKeeps(t, net, x, e, Next(net, ev));
    case Terminated(x) =>
      var e := Terminate(net.gates[x]);
      PostIsPosted(net.(dead := net.dead + {x}), x, e);
      DepartureKeeps(t, net, x, Next(net, ev));
      TerminationSends(t, net.gates[x]);
  }

  /** Doing nothing is sound. */
  lemma IdleKeeps(t: Tree, g: State)
    requires Sound(t, g)
    ensures GoodStep(t, g, Effect(g, []), None) && SameDgs(g, g)
  {
  }

  lemma DeliverSends(t: Tree, net: Net, f: Node, x: Node)
    requires Inv(t, net) && Enabled(net, Deliver(f, x))
    ensures var e := Receive(net.gates[x], f, net.links[(f, x)][0]);
      Sendable(net.gates[x].declared + e.state.declared, e.sends)
  {
    AdjFacts(t, f, x);
    var q, g := net.links[(f, x)], net.gates[x];
    assert LinkOk(t, net, f, x);
    HeadIsExpected(t, net.gates[f], q, g, f in net.dead);
    if q[0].Assertion? { AssertionKeeps(t, g, f, q[0].key); }
    else { CancellationKeeps(t, g, f, q[0].key); }
  }

  lemma TerminationSends(t: Tree, g: State)
    requires Sound(t, g)
    ensures Sendable(g.declared, Terminate(g).sends)
  {
    var i := FindSubject(g.petitions, Pseudo(g.me));
    if i < |g.petitions| {
      assert KeyOk(t, g, g.petitions[i].key);
      LookupAt(g.petitions, i);
      FarewellFacts(g.declared, g.petitions[i].sgs);
    }
  }

  // ---- Every run ----------------------------------------------------------------------------

  predicate Legal(net: Net, evs: seq<Event>)
    decreases |evs|
  {
    evs == [] || (Enabled(net, evs[0]) && Legal(Next(net, evs[0]), evs[1..]))
  }

  function Exec(net: Net, evs: seq<Event>): Net
    requires Legal(net, evs)
    decreases |evs|
  {
    if evs == [] then net else Exec(Next(net, evs[0]), evs[1..])
  }

  lemma {:induction false} RunKeeps(t: Tree, net: Net, evs: seq<Event>)
    requires Inv(t, net) && Legal(net, evs)
    ensures Inv(t, Exec(net, evs))
    decreases |evs|
  {
    if evs != [] {
      StepKeeps(t, net, evs[0]);
      RunKeeps(t, Next(net, evs[0]), evs[1..]);
    }
  }

  ghost predicate Reachable(t: Tree, net: Net) {
    exists net0, evs :: Init(t, net0) && Legal(net0, evs) && net == Exec(net0, evs)
  }

  lemma ReachableInv(t: Tree, net: Net)
    requires Reachable(t, net)
    ensures Inv(t, net)
  {
    var net0, evs :| Init(t, net0) && Legal(net0, evs) && net == Exec(net0, evs);
    InitInv(t, net0);
    RunKeeps(t, net0, evs);
  }
}
