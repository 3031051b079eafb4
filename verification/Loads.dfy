/** How much there is on the way in a network and yet to come at its gateways,
    for any way of weighing RPDUs and gateways. */
module Loads {
  import opened Lists
  import opened Topology
  import opened Petitions
  import opened Network

  // ---- Sums ------------------------------------------------------------------------------------

  ghost function Sum(s: set<Node>, f: Node -> nat): (n: nat) {
    if s == {} then 0 else var x :| x in s; f(x) + Sum(s - {x}, f)
  }

  lemma {:induction false} SumSplit(s: set<Node>, f: Node -> nat, x: Node)
    requires x in s
    ensures Sum(s, f) == f(x) + Sum(s - {x}, f)
  {
    var y :| y in s && Sum(s, f) == f(y) + Sum(s - {y}, f);
    if y != x {
      SumSplit(s - {y}, f, x);
      SumSplit(s - {x}, f, y);
      assert s - {y} - {x} == s - {x} - {y};
    }
  }

  lemma {:induction false} SumBelow(s: set<Node>, f: Node -> nat, g: Node -> nat, h: Node -> nat)
    requires forall x :: x in s ==> h(x) <= f(x) + g(x)
    ensures Sum(s, h) <= Sum(s, f) + Sum(s, g)
  {
    if s != {} {
      var x :| x in s;
      SumSplit(s, f, x); SumSplit(s, g, x); SumSplit(s, h, x);
      SumBelow(s - {x}, f, g, h);
    }
  }

  /** h is f but for x, where it is n. */
  lemma {:induction false} SumOne(s: set<Node>, f: Node -> nat, h: Node -> nat, x: Node)
    requires x in s && forall y :: y in s && y != x ==> h(y) == f(y)
    ensures Sum(s, h) + f(x) == Sum(s, f) + h(x)
  {
    SumSplit(s, f, x); SumSplit(s, h, x);
    SumSame(s - {x}, f, h);
  }

  lemma {:induction false} SumSame(s: set<Node>, f: Node -> nat, h: Node -> nat)
    requires forall y :: y in s ==> h(y) == f(y)
    ensures Sum(s, h) == Sum(s, f)
  {
    if s != {} {
      var x :| x in s;
      SumSplit(s, f, x); SumSplit(s, h, x);
      SumSame(s - {x}, f, h);
    }
  }

  // ---- Weighing a network ------------------------------------------------------------------------

  /** What an RPDU on its way from one node to another weighs, and a gateway. */
  datatype Measure = Measure(nodes: set<Node>, rpdu: (Node, Node, Rpdu) -> nat, gate: State -> nat)

  ghost function Queue(m: Measure, a: Node, b: Node, q: seq<Rpdu>): (n: nat) {
    if q == [] then 0 else m.rpdu(a, b, q[0]) + Queue(m, a, b, q[1..])
  }

  ghost function Sent(m: Measure, a: Node, sends: seq<Send>): (n: nat) {
    if sends == [] then 0
    else Sent(m, a, sends[..|sends|-1]) + m.rpdu(a, sends[|sends|-1].dest, sends[|sends|-1].rpdu)
  }

  lemma {:induction false} QueueConcat(m: Measure, a: Node, b: Node, q: seq<Rpdu>, q': seq<Rpdu>)
    ensures Queue(m, a, b, q + q') == Queue(m, a, b, q) + Queue(m, a, b, q')
  {
    if q == [] {
      assert q + q' == q';
    } else {
      assert (q + q')[1..] == q[1..] + q';
      QueueConcat(m, a, b, q[1..], q');
    }
  }

  lemma {:induction false} SentConcat(m: Measure, a: Node, s: seq<Send>, s': seq<Send>)
    ensures Sent(m, a, s + s') == Sent(m, a, s) + Sent(m, a, s')
  {
    if s' == [] {
      assert s + s' == s;
    } else {
      assert (s + s')[..|s + s'|-1] == s + s'[..|s'|-1];
      SentConcat(m, a, s, s'[..|s'|-1]);
    }
  }

  ghost function OutAt(m: Measure, net: Net, x: Node, z: Node): (n: nat) {
    if (x, z) in net.links then Queue(m, x, z, net.links[(x, z)]) else 0
  }

  ghost function Out(m: Measure, net: Net, x: Node): (n: nat) {
    Sum(m.nodes, z => OutAt(m, net, x, z))
  }

  ghost function Load(m: Measure, net: Net, x: Node): (n: nat) {
    (if x in net.gates then m.gate(net.gates[x]) else 0) + Out(m, net, x)
  }

  ghost function Total(m: Measure, net: Net): (n: nat) {
    Sum(m.nodes, x => Load(m, net, x))
  }

  /** Link by link, what is sent weighs no more. */
  lemma {:induction false} SentByLink(m: Measure, x: Node, sends: seq<Send>)
    ensures Sum(m.nodes, z => Queue(m, x, z, To(sends, z))) <= Sent(m, x, sends)
  {
    var f := (z: Node) => Queue(m, x, z, To(sends, z));
    if sends == [] {
      SumZero(m.nodes, f);
    } else {
      var front, s := sends[..|sends|-1], sends[|sends|-1];
      assert sends == front + [s];
      SentByLink(m, x, front);
      var g := (z: Node) => Queue(m, x, z, To(front, z));
      var w := m.rpdu(x, s.dest, s.rpdu);
      forall z: Node ensures f(z) == g(z) + if z == s.dest then w else 0 {
        ToConcat(front, [s], z);
        QueueConcat(m, x, z, To(front, z), To([s], z));
        ToOne(s, z);
        QueueOne(m, x, z, s.rpdu);
      }
      if s.dest in m.nodes { SumOne(m.nodes, g, f, s.dest); } else { SumSame(m.nodes, g, f); }
    }
  }

  lemma ToOne(s: Send, z: Node)
    ensures To([s], z) == if z == s.dest then [s.rpdu] else []
  {
    assert [s][1..] == [];
  }

  lemma QueueOne(m: Measure, a: Node, b: Node, r: Rpdu)
    ensures Queue(m, a, b, [r]) == m.rpdu(a, b, r)
  {
    assert [r][1..] == [];
  }

  lemma {:induction false} SumZero(s: set<Node>, f: Node -> nat)
    requires forall x :: x in s ==> f(x) == 0
    ensures Sum(s, f) == 0
  {
    if s != {} {
      var x :| x in s;
      SumSplit(s, f, x);
      SumZero(s - {x}, f);
    }
  }

  /** The head of a queue is taken. */
  lemma TakenWeighs(m: Measure, net: Net, f: Node, x: Node)
    requires f in m.nodes && x in m.nodes && (f, x) in net.links && net.links[(f, x)] != []
    ensures var q := net.links[(f, x)];
      Total(m, net.(links := net.links[(f, x) := q[1..]])) + m.rpdu(f, x, q[0]) == Total(m, net)
  {
    var net1 := net.(links := net.links[(f, x) := net.links[(f, x)][1..]]);
    SumOne(m.nodes, z => OutAt(m, net, f, z), z => OutAt(m, net1, f, z), x);
    forall y: Node | y != f ensures Load(m, net1, y) == Load(m, net, y) {
      SumSame(m.nodes, z => OutAt(m, net, y, z), z => OutAt(m, net1, y, z));
    }
    SumOne(m.nodes, y => Load(m, net, y), y => Load(m, net1, y), f);
  }

  /** x reacts. */
  lemma PostedWeighs(m: Measure, net: Net, x: Node, e: Effect, net2: Net)
    requires x in m.nodes && x in net.gates && Posted(net, x, e, net2)
    ensures Total(m, net2) + m.gate(net.gates[x]) <=
      Total(m, net) + m.gate(e.state) + Sent(m, x, e.sends)
  {
    OutGrows(m, net, x, e, net2);
    forall y: Node | y != x ensures Load(m, net2, y) == Load(m, net, y) {
      SumSame(m.nodes, z => OutAt(m, net, y, z), z => OutAt(m, net2, y, z));
    }
    SumOne(m.nodes, y => Load(m, net, y), y => Load(m, net2, y), x);
  }

  lemma OutGrows(m: Measure, net: Net, x: Node, e: Effect, net2: Net)
    requires x in net.gates && Posted(net, x, e, net2)
    ensures Out(m, net2, x) <= Out(m, net, x) + Sent(m, x, e.sends)
  {
    var before := (z: Node) => OutAt(m, net, x, z);
    var more := (z: Node) => Queue(m, x, z, To(e.sends, z));
    var after := (z: Node) => OutAt(m, net2, x, z);
    forall z: Node ensures after(z) <= before(z) + more(z) {
      if (x, z) in net.links { QueueConcat(m, x, z, net.links[(x, z)], To(e.sends, z)); }
    }
    SumBelow(m.nodes, before, more, after);
    SentByLink(m, x, e.sends);
  }

  // ---- Runs of deliveries ---------------------------------------------------------------------------

  predicate Deliveries(evs: seq<Event>) {
    forall ev :: ev in evs ==> ev.Deliver?
  }

  /** Nothing can be delivered any more. */
  ghost predicate Settled(net: Net) {
    forall a, b :: !Enabled(net, Deliver(a, b))
  }

  lemma {:induction false} LegalAppend(net: Net, evs: seq<Event>, ev: Event)
    requires Legal(net, evs) && Enabled(Exec(net, evs), ev)
    ensures Legal(net, evs + [ev]) && Exec(net, evs + [ev]) == Next(Exec(net, evs), ev)
    decreases |evs|
  {
    if evs == [] {
      assert [ev][1..] == [];
    } else {
      assert (evs + [ev])[1..] == evs[1..] + [ev];
      LegalAppend(Next(net, evs[0]), evs[1..], ev);
    }
  }
}
