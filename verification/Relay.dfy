/** Where a gateway sends the messages of application modules. */
module Relay {
  import opened Lists
  import opened Topology
  import opened Petitions

  /** The source of a published message, and its subject.  The role number is
      -1 when the source's role is unknown. */
  datatype Message = Message(cont: nat, unit: nat, role: int, subject: int)

  /** `within(u, v)` says that unit u lies within unit v. */
  predicate Satisfies(within: (nat, nat) -> bool, m: Message, k: Key) {
    && m.subject == k.subject
    && (k.cont == 0 || k.cont == m.cont)
    && (k.unit == 0 || within(m.unit, k.unit))
    && (k.role == 0 || k.role == m.role)
  }

  /** The union of the DGSs of the petitions that m satisfies, without the
      gateway that m came from, in the order in which they are found. */
  function Recipients(within: (nat, nat) -> bool, m: Message, ps: seq<Petition>, skip: Option<Node>): (r: seq<Node>)
    ensures forall y :: y in r <==> Some(y) != skip && exists p :: p in ps && Satisfies(within, m, p.key) && y in p.dgs
  {
    if ps == [] then []
    else
      var p := ps[|ps|-1];
      assert ps == ps[..|ps|-1] + [p];
      WithRecipients(within, m, p, skip, Recipients(within, m, ps[..|ps|-1], skip))
  }

  /** Those that p adds to the recipients in r. */
  function WithRecipients(within: (nat, nat) -> bool, m: Message, p: Petition, skip: Option<Node>, r: seq<Node>)
    : (q: seq<Node>)
  {
    if Satisfies(within, m, p.key)
    then Union(r, match skip case None => p.dgs case Some(from) => Without(p.dgs, [from]))
    else r
  }

  lemma RecipientsNext(within: (nat, nat) -> bool, m: Message, ps: seq<Petition>, i: nat, skip: Option<Node>)
    requires i < |ps|
    ensures Recipients(within, m, ps[..i+1], skip) ==
      WithRecipients(within, m, ps[i], skip, Recipients(within, m, ps[..i], skip))
  {
    assert ps[..i+1][..i] == ps[..i];
  }

  lemma {:induction false} RecipientsOnce(within: (nat, nat) -> bool, m: Message, ps: seq<Petition>, skip: Option<Node>)
    ensures NoRepeats(Recipients(within, m, ps, skip))
  {
    if ps != [] {
      RecipientsOnce(within, m, ps[..|ps|-1], skip);
      var p := ps[|ps|-1];
      UnionNoRepeats(Recipients(within, m, ps[..|ps|-1], skip),
        match skip case None => p.dgs case Some(from) => Without(p.dgs, [from]));
    }
  }

  /** The local modules that are to get m: the union of the DMSs. */
  function Readers(within: (nat, nat) -> bool, m: Message, ps: seq<Petition>): (r: seq<ModuleId>)
    ensures forall x :: x in r <==> exists p :: p in ps && Satisfies(within, m, p.key) && x in p.dms
  {
    if ps == [] then []
    else
      var p := ps[|ps|-1];
      assert ps == ps[..|ps|-1] + [p];
      WithReaders(within, m, p, Readers(within, m, ps[..|ps|-1]))
  }

  /** Those that p adds to the readers in r. */
  function WithReaders(within: (nat, nat) -> bool, m: Message, p: Petition, r: seq<ModuleId>): (q: seq<ModuleId>) {
    if Satisfies(within, m, p.key) then Union(r, p.dms) else r
  }

  lemma ReadersNext(within: (nat, nat) -> bool, m: Message, ps: seq<Petition>, i: nat)
    requires i < |ps|
    ensures Readers(within, m, ps[..i+1]) == WithReaders(within, m, ps[i], Readers(within, m, ps[..i]))
  {
    assert ps[..i+1][..i] == ps[..i];
  }

  lemma {:induction false} ReadersOnce(within: (nat, nat) -> bool, m: Message, ps: seq<Petition>)
    ensures NoRepeats(Readers(within, m, ps))
  {
    if ps != [] {
      ReadersOnce(within, m, ps[..|ps|-1]);
      UnionNoRepeats(Readers(within, m, ps[..|ps|-1]), ps[|ps|-1].dms);
    }
  }

  /** HandlePrivateMessage: a private message is for this continuum, goes on
      to a conduit, or goes nowhere. */
  datatype Routing = Here | Onward(next: Node) | Nowhere

  function Conduct(g: State, dest: nat): Routing {
    if dest == g.me then Here
    else match Conduit(g.petitions, dest)
      case None => Nowhere
      case Some(n) => Onward(n)
  }

  /** ForwardTargetedMessage: to all continua (0) or to the conduit of one. */
  function ForwardTargeted(g: State, dest: nat): seq<Node> {
    if dest == 0 then g.declared
    else match Conduit(g.petitions, dest)
      case None => []
      case Some(n) => [n]
  }

  /** HandleAnnouncedMessage: an announcement to all continua is relayed in a
      tree only, one to another continuum goes to its conduit. */
  function Announce(g: State, dest: nat, from: Node): seq<Node> {
    if dest == 0 then if g.tree then Without(g.declared, [from]) else []
    else match Conduct(g, dest)
      case Onward(n) => [n]
      case _ => []
  }

  /** Whether it is announced in this gateway's own continuum. */
  predicate AnnouncedHere(g: State, dest: nat) {
    dest == 0 || dest == g.me
  }
}
