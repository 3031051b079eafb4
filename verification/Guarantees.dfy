/** What holds in every reachable state of a RAMS tree network. */
module Guarantees {
  import opened Lists
  import opened Topology
  import opened Petitions
  import opened Effects
  import opened Soundness
  import opened Shrinking
  import opened Links
  import opened Network

  /** Whoever asked x for traffic on a pseudo-subject, or is about to, is the
      next hop from x to that continuum. */
  lemma ConduitDirection(t: Tree, net: Net, x: Node, y: Node, k: Key)
    requires Reachable(t, net) && x in net.gates && x !in net.dead && k.subject < 0
    requires y in Lookup(net.gates[x].petitions, k).dgs
      || ((y, x) in net.links && Assertion(k) in net.links[(y, x)])
    ensures var c: Node := -k.subject; c in Nodes(t) && k == OwnKey(c) && c != x && y == Hop(t, x, c)
  {
    ReachableInv(t, net);
    if y in Lookup(net.gates[x].petitions, k).dgs {
      AskedDirection(t, net.gates[x], y, k);
    } else {
      assert LinkOk(t, net, y, x);
      InFlightDirection(t, y, x, k);
    }
  }

  lemma AskedDirection(t: Tree, g: State, y: Node, k: Key)
    requires Sound(t, g) && k.subject < 0 && y in Lookup(g.petitions, k).dgs
    ensures var c: Node := -k.subject; c in Nodes(t) && k == OwnKey(c) && c != g.me && y == Hop(t, g.me, c)
  {
    assert KeyOk(t, g, k);
  }

  lemma InFlightDirection(t: Tree, y: Node, x: Node, k: Key)
    requires InFlightOk(t, y, x, Assertion(k)) && k.subject < 0
    ensures var c: Node := -k.subject; c in Nodes(t) && k == OwnKey(c) && c != x && y == Hop(t, x, c)
  {
  }

  /** Neighbours agree about who asked whom, up to the RPDUs in flight; and
      no list of petitions or neighbours holds anything twice. */
  lemma LinkAgreement(t: Tree, net: Net, a: Node, b: Node, k: Key)
    requires Reachable(t, net) && Adj(t, a, b) && a !in net.dead && b !in net.dead
    ensures (a, b) in net.links && a in net.gates && b in net.gates
    ensures var ga, gb := net.gates[a], net.gates[b];
      && Alternates(a in Lookup(gb.petitions, k).dgs, About(net.links[(a, b)], k), b in Lookup(ga.petitions, k).sgs)
      && UniqueKeys(ga.petitions) && NoRepeats(ga.declared)
      && NoRepeats(Lookup(ga.petitions, k).dgs) && NoRepeats(Lookup(ga.petitions, k).sgs)
  {
    ReachableInv(t, net);
    AdjFacts(t, a, b);
    assert LinkOk(t, net, a, b);
    assert AgreeOn(net.gates[a], net.links[(a, b)], net.gates[b], k);
    assert KeyOk(t, net.gates[a], k);
  }

  /** Interest is never lost: a neighbour in the domain of p that might have
      messages for somebody else has been asked for them. */
  lemma InterestKept(t: Tree, net: Net, x: Node, k: Key, y: Node)
    requires Reachable(t, net) && x in net.gates && x !in net.dead
    requires var g := net.gates[x];
      var p := Lookup(g.petitions, k);
      && (if k.cont == 0 then y in g.declared else Conduit(g.petitions, k.cont) == Some(y))
      && (p.dms != [] || exists z :: z in p.dgs && z != y)
    ensures y in Lookup(net.gates[x].petitions, k).sgs
  {
    ReachableInv(t, net);
    AskedWhenInterested(t, net.gates[x], k, y);
  }

  lemma AskedWhenInterested(t: Tree, g: State, k: Key, y: Node)
    requires Sound(t, g)
    requires var p := Lookup(g.petitions, k);
      && (if k.cont == 0 then y in g.declared else Conduit(g.petitions, k.cont) == Some(y))
      && (p.dms != [] || exists z :: z in p.dgs && z != y)
    ensures y in Lookup(g.petitions, k).sgs
  {
    assert KeyOk(t, g, k) && y in Domain(g, Lookup(g.petitions, k));
  }

  /** A gateway subscribes locally to everything its neighbours ask it for. */
  lemma SubscribedForNeighbours(t: Tree, net: Net, x: Node, k: Key)
    requires Reachable(t, net) && x in net.gates && x !in net.dead
    requires Lookup(net.gates[x].petitions, k).dgs != [] && (k.cont == 0 || k.cont == x)
    ensures k in net.gates[x].subscribed
  {
    ReachableInv(t, net);
    assert KeyOk(t, net.gates[x], k);
  }

  /** The declared neighbours of the gateway at which ev happens, when it sends. */
  function DeclaredThen(net: Net, ev: Event): seq<Node>
    requires Enabled(net, ev)
  {
    match ev
    case Deliver(from, to) => DeclaredFor(net.gates[to], from, net.links[(from, to)][0])
    case _ => net.gates[ev.at].declared
  }

  /** No transmission is refused for want of a declared neighbour. */
  lemma NeverUndeclared(t: Tree, net: Net, ev: Event)
    requires Reachable(t, net) && Enabled(net, ev)
    ensures AllTo(DeclaredThen(net, ev), Reaction(net, ev).1.sends)
  {
    ReachableInv(t, net);
    match ev
    case Deliver(f, x) => DeliveredSends(t, net, f, x);
    case _ => LocalSends(t, net.gates[ev.at], net, ev);
  }

  lemma LocalSends(t: Tree, g: State, net: Net, ev: Event)
    requires Sound(t, g) && Enabled(net, ev) && !ev.Deliver? && g == net.gates[ev.at]
    ensures AllTo(g.declared, Reaction(net, ev).1.sends)
  {
    match ev
    case Joined(x, m, k) => AdditionKeeps(t, g, m, k);
    case Left(x, m, k) => RemovalKeeps(t, g, m, k);
    case Terminated(x) => TerminationSends(t, g);
  }

  lemma DeliveredSends(t: Tree, net: Net, f: Node, x: Node)
    requires Inv(t, net) && Enabled(net, Deliver(f, x))
    ensures var q := net.links[(f, x)];
      AllTo(DeclaredFor(net.gates[x], f, q[0]), Receive(net.gates[x], f, q[0]).sends)
  {
    AdjFacts(t, f, x);
    var q, g := net.links[(f, x)], net.gates[x];
    assert LinkOk(t, net, f, x);
    HeadIsExpected(t, net.gates[f], q, g, f in net.dead);
    HeadHandled(t, net.gates[f], q, g, f in net.dead);
    if q[0].Cancellation? {
      assert KeyOk(t, g, q[0].key);
    }
  }

  // ---- The stream of RPDUs on one link --------------------------------------------------

  /** Everything a sends to b during a run. */
  function Stream(net: Net, evs: seq<Event>, a: Node, b: Node): seq<Rpdu>
    requires Legal(net, evs)
    decreases |evs|
  {
    if evs == [] then []
    else
      Said(net, evs[0], a, b) + Stream(Next(net, evs[0]), evs[1..], a, b)
  }

  /** What a sends to b when ev happens. */
  function Said(net: Net, ev: Event, a: Node, b: Node): seq<Rpdu>
    requires Enabled(net, ev)
  {
    var (x, e) := Reaction(net, ev);
    if x == a then To(e.sends, b) else []
  }

  lemma StepDisciplined(t: Tree, net: Net, ev: Event, b: Node, k: Key)
    requires Inv(t, net) && Enabled(net, ev) && b !in net.dead
    ensures var (x, e) := Reaction(net, ev); Disciplined(net.gates[x], e, b, k)
  {
    var (x, e) := Reaction(net, ev);
    var g := net.gates[x];
    match ev
    case Deliver(f, _) =>
      AdjFacts(t, f, x);
      assert LinkOk(t, net, f, x);
      HeadHandled(t, net.gates[f], net.links[(f, x)], g, f in net.dead);
    case Joined(_, m, key) => AdditionKeeps(t, g, m, key); IdleKeeps(t, g);
    case Left(_, m, key) => RemovalKeeps(t, g, m, key); IdleKeeps(t, g);
    case Terminated(_) => TerminationEffect(t, g, b, k);
  }

  lemma {:induction false} StreamAlternates(t: Tree, net: Net, evs: seq<Event>, a: Node, b: Node, k: Key, was: bool, q: seq<Rpdu>)
    requires Inv(t, net) && Legal(net, evs) && a in net.gates && b !in Exec(net, evs).dead
    requires Alternates(was, q, b in Lookup(net.gates[a].petitions, k).sgs)
    ensures a in Exec(net, evs).gates
    ensures Alternates(was, q + About(Stream(net, evs, a, b), k), b in Lookup(Exec(net, evs).gates[a].petitions, k).sgs)
    decreases |evs|
  {
    if evs == [] {
      assert q + [] == q;
    } else {
      DeadStay(net, evs, b);
      SaidAlternates(t, net, evs[0], a, b, k, was, q);
      var said, net1 := Said(net, evs[0], a, b), Next(net, evs[0]);
      var rest := Stream(net1, evs[1..], a, b);
      JoinAbout(q, said, rest, k);
      StreamAlternates(t, net1, evs[1..], a, b, k, was, q + About(said, k));
    }
  }

  lemma JoinAbout(q: seq<Rpdu>, a: seq<Rpdu>, b: seq<Rpdu>, k: Key)
    ensures q + About(a + b, k) == q + About(a, k) + About(b, k)
  {
    AboutConcat(a, b, k);
    assert q + (About(a, k) + About(b, k)) == q + About(a, k) + About(b, k);
  }

  lemma SaidAlternates(t: Tree, net: Net, ev: Event, a: Node, b: Node, k: Key, was: bool, q: seq<Rpdu>)
    requires Inv(t, net) && Enabled(net, ev) && a in net.gates && b !in net.dead
    requires Alternates(was, q, b in Lookup(net.gates[a].petitions, k).sgs)
    ensures Inv(t, Next(net, ev)) && a in Next(net, ev).gates
    ensures Alternates(was, q + About(Said(net, ev, a, b), k), b in Lookup(Next(net, ev).gates[a].petitions, k).sgs)
  {
    StepKeeps(t, net, ev);
    StepDisciplined(t, net, ev, b, k);
    var now, now' := b in Lookup(net.gates[a].petitions, k).sgs, b in Lookup(Next(net, ev).gates[a].petitions, k).sgs;
    AlternatesExtend(was, q, now, k, now');
    assert About(Said(net, ev, a, b), k) == Change(k, now, now');
  }

  lemma {:induction false} DeadStay(net: Net, evs: seq<Event>, b: Node)
    requires Legal(net, evs)
    ensures b in net.dead ==> b in Exec(net, evs).dead
    decreases |evs|
  {
    if evs != [] { DeadStay(Next(net, evs[0]), evs[1..], b); }
  }

  /** Over a whole run, the RPDUs that a sends to a live neighbour b about one
      petition alternate between assertion and cancellation, assertion first,
      and end with an assertion iff a still lists b as asked. */
  lemma NeverAssertedTwice(t: Tree, net: Net, evs: seq<Event>, a: Node, b: Node, k: Key)
    requires Init(t, net) && Legal(net, evs) && Adj(t, a, b) && b !in Exec(net, evs).dead
    ensures a in Exec(net, evs).gates && (a, b) in net.links
    ensures Alternates(false, About(net.links[(a, b)] + Stream(net, evs, a, b), k),
      b in Lookup(Exec(net, evs).gates[a].petitions, k).sgs)
  {
    InitInv(t, net);
    FirstWord(t, net, a, b, k);
    var q := net.links[(a, b)];
    StreamAlternates(t, net, evs, a, b, k, false, About(q, k));
    AboutConcat(q, Stream(net, evs, a, b), k);
  }

  lemma FirstWord(t: Tree, net: Net, a: Node, b: Node, k: Key)
    requires Init(t, net) && Adj(t, a, b)
    ensures a in net.gates && (a, b) in net.links
    ensures Alternates(false, About(net.links[(a, b)], k), b in Lookup(net.gates[a].petitions, k).sgs)
  {
    AdjFacts(t, a, b);
    var self, neighbors :| Started(t, net, a, self, neighbors);
    SendAllTo(neighbors, Assertion(OwnKey(a)), b);
    assert net.links[(a, b)] == [Assertion(OwnKey(a))];
  }
}
