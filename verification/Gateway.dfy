/** The RAMS gateway as the source has it: lists of petitions and of nodes that
    are searched and edited in place, RPDUs sent along the way.  Each method is
    proved against the corresponding function on values. */
module Gateways {
  import opened Lists
  import opened Topology
  import opened Petitions
  import opened Effects
  import opened Relay

  /** One petition and its three lists. */
  class Entry {
    const key: Key
    var dms: seq<ModuleId>
    var dgs: seq<Node>
    var sgs: seq<Node>

    constructor (key: Key)
      ensures this.key == key && dms == [] && dgs == [] && sgs == []
    {
      this.key := key;
      dms, dgs, sgs := [], [], [];
    }

    ghost function Value(): Petition
      reads this
    {
      Petition(key, dms, dgs, sgs)
    }
  }

  ghost function Values(es: seq<Entry>): (r: seq<Petition>)
    reads es
    ensures |r| == |es|
    ensures forall i {:trigger r[i]} :: 0 <= i < |es| ==> r[i] == es[i].Value()
  {
    seq(|es|, i requires 0 <= i < |es| reads es => es[i].Value())
  }

  ghost predicate Distinct(es: seq<Entry>) {
    forall i, j :: 0 <= i < j < |es| ==> es[i] != es[j]
  }

  /** SubtractNodeSets. */
  method SubtractNodeSets(set1: seq<Node>, set2: seq<Node>) returns (r: seq<Node>)
    ensures r == Without(set1, set2)
  {
    r := [];
    for i := 0 to |set1|
      invariant r == Without(set1[..i], set2)
    {
      assert set1[..i+1][..i] == set1[..i];
      if set1[i] !in set2 { r := r + [set1[i]]; }
    }
    assert set1[..|set1|] == set1;
  }

  /** AddNodeSets, which also removes duplicates of set2. */
  method AddNodeSets(set1: seq<Node>, set2: seq<Node>) returns (r: seq<Node>)
    ensures r == Union(set1, set2)
  {
    r := set1;
    for i := 0 to |set2|
      invariant r == Union(set1, set2[..i])
    {
      assert set2[..i+1][..i] == set2[..i];
      if set2[i] !in r { r := r + [set2[i]]; }
    }
    assert set2[..|set2|] == set2;
  }

  /** The RPDUs a method sends are its result `out`.  A method fails, and the
      gateway stops, when an RPDU is for a neighbour that has not declared
      itself; `ok` says that it did not. */
  class Gateway {
    const me: Node
    const self: ModuleId
    const tree: bool
    var declared: seq<Node>
    var petitionSet: seq<Entry>
    var subscribed: set<Key>

    ghost predicate Valid()
      reads this
    {
      Distinct(petitionSet)
    }

    ghost function View(): (g: State)
      reads this, petitionSet
    {
      State(me, self, tree, declared, Values(petitionSet), subscribed)
    }

    /** rams_run up to its main loop. */
    constructor (me: Node, self: ModuleId, tree: bool, neighbors: seq<Node>)
      ensures Valid() && fresh(petitionSet)
      ensures View() == Start(me, self, tree, neighbors).state
    {
      this.me, this.self, this.tree := me, self, tree;
      var own := new Entry(OwnKey(me));
      own.sgs := neighbors;
      own.dms := [self];
      declared, petitionSet := [], [own];
      subscribed := {OwnKey(me)};
    }

    method FindPetition(k: Key) returns (i: nat)
      ensures i == Find(View().petitions, k)
    {
      ghost var ps := View().petitions;
      i := 0;
      while i < |petitionSet| && petitionSet[i].key != k
        invariant 0 <= i <= |petitionSet| && forall j :: 0 <= j < i ==> ps[j].key != k
      {
        assert ps[i] == petitionSet[i].Value();
        i := i + 1;
      }
      if i < |petitionSet| { assert ps[i] == petitionSet[i].Value(); }
    }

    method GetConduitForContinuum(c: nat) returns (r: Option<Node>)
      ensures r == Conduit(View().petitions, c)
    {
      ghost var ps := Values(petitionSet);
      var i := 0;
      while i < |petitionSet|
        invariant 0 <= i <= |petitionSet|
        invariant Conduit(ps, c) == Conduit(ps[i..], c)
      {
        var pet := petitionSet[i];
        if pet.key.subject == Pseudo(c) && pet.dgs != [] {
          return Some(pet.dgs[0]);
        }
        assert ps[i..][1..] == ps[i+1..];
        i := i + 1;
      }
      return None;
    }

    /** The neighbours in the domain of a petition. */
    method GetDomain(pet: Entry) returns (s: seq<Node>)
      ensures s == Domain(View(), pet.Value())
    {
      if pet.key.cont == 0 { return declared; }
      var n := GetConduitForContinuum(pet.key.cont);
      s := match n case None => [] case Some(node) => [node];
    }

    method GetAssertionSet(pet: Entry) returns (s: seq<Node>)
      ensures s == AssertionSet(View(), pet.Value())
    {
      s := GetDomain(pet);
      s := SubtractNodeSets(s, pet.sgs);
      if pet.dms == [] && |pet.dgs| == 1 {
        s := SubtractNodeSets(s, pet.dgs);
      }
    }

    /** SendRPDU of r to each of nodes, until one of them is undeclared. */
    method SendRpdus(nodes: seq<Node>, r: Rpdu) returns (ok: bool, out: seq<Send>)
      ensures ok <==> AllTo(declared, SendAll(nodes, r))
      ensures ok ==> out == SendAll(nodes, r)
    {
      out := [];
      for i := 0 to |nodes|
        invariant out == SendAll(nodes, r)[..i]
        invariant forall j :: 0 <= j < i ==> nodes[j] in declared
      {
        if nodes[i] !in declared {
          assert SendAll(nodes, r)[i] in SendAll(nodes, r);
          return false, out;
        }
        out := out + [Send(nodes[i], r)];
      }
      assert SendAll(nodes, r)[..|nodes|] == SendAll(nodes, r);
      ok := true;
    }

    method SetSgs(i: nat, sgs: seq<Node>)
      requires Valid() && i < |petitionSet|
      modifies petitionSet[i]
      ensures View() == old(View()).(petitions := old(View().petitions)[i := old(petitionSet[i].Value()).(sgs := sgs)])
    {
      petitionSet[i].sgs := sgs;
      assert View().petitions == old(View().petitions)[i := petitionSet[i].Value()];
    }

    method AssertTo(i: nat, assertionSet: seq<Node>) returns (ok: bool, out: seq<Send>)
      requires Valid() && i < |petitionSet|
      modifies petitionSet[i]
      ensures ok <==> AllTo(declared, SendAll(assertionSet, Assertion(petitionSet[i].key)))
      ensures ok ==> out == SendAll(assertionSet, Assertion(petitionSet[i].key))
      ensures ok ==> var p := old(petitionSet[i].Value());
        View() == old(View()).(petitions := old(View().petitions)[i := p.(sgs := Union(p.sgs, assertionSet))])
    {
      ok, out := SendRpdus(assertionSet, Assertion(petitionSet[i].key));
      if !ok { return; }
      var sgs := AddNodeSets(petitionSet[i].sgs, assertionSet);
      SetSgs(i, sgs);
    }

    method DoAssertPetition(i: nat) returns (ok: bool, out: seq<Send>)
      requires Valid() && i < |petitionSet|
      modifies petitionSet[i]
      ensures ok <==> AllTo(declared, AssertAt(old(View()), i).sends)
      ensures ok ==> AssertAt(old(View()), i) == Effect(View(), out)
    {
      var pet := petitionSet[i];
      assert View().petitions[i] == pet.Value();
      AssertAtIs(View(), i);
      if pet.dms == [] {
        if !tree || pet.dgs == [] { return true, []; }
      }
      var assertionSet := GetAssertionSet(pet);
      ok, out := AssertTo(i, assertionSet);
    }

    /** CancelPetition, if the i-th petition is no longer assertable. */
    method CancelIfIdlePetition(i: nat) returns (ok: bool, out: seq<Send>)
      requires Valid() && i < |petitionSet|
      modifies petitionSet[i]
      ensures ok <==> AllTo(declared, CancelAt(old(View()), i, old(petitionSet[i].Value())).sends)
      ensures ok ==> CancelAt(old(View()), i, old(petitionSet[i].Value())) == Effect(View(), out)
    {
      var pet := petitionSet[i];
      var assertable := pet.dms != [] || (tree && pet.dgs != []);
      ok, out := true, [];
      if !assertable {
        if pet.dgs == [] {
          ok, out := SendRpdus(pet.sgs, Cancellation(pet.key));
          if !ok { return; }
          pet.sgs := [];
        } else if |pet.dgs| == 1 {
          var node := pet.dgs[0];
          if node in pet.sgs {
            ok, out := SendRpdus([node], Cancellation(pet.key));
            if !ok { return; }
            pet.sgs := RemoveFirst(pet.sgs, node);
          }
        }
      }
      assert View().petitions == old(View().petitions)[i := pet.Value()];
    }

    /** Whether a petition other than k is to be passed on to `from`. */
    method IsDue(aPet: Entry, from: Node, k: Key) returns (due: bool)
      ensures due <==> aPet.key != k && Assertable(View(), aPet.Value()) && from in AssertionSet(View(), aPet.Value())
    {
      due := false;
      if aPet.key != k {
        if aPet.dms != [] || (tree && aPet.dgs != []) {
          var assertionSet := GetAssertionSet(aPet);
          due := from in assertionSet;
        }
      }
    }

    /** One petition in the loop of PassPetitionsOn. */
    method PassPetitionOn(j: nat, from: Node, k: Key) returns (ok: bool, out: seq<Send>)
      requires Valid() && j < |petitionSet|
      modifies petitionSet[j]
      ensures var r := PassOn(old(View()), from, k, old(petitionSet[j].Value()));
        && (ok <==> AllTo(declared, r.1))
        && (ok ==> out == r.1 && View() == old(View()).(petitions := old(View().petitions)[j := r.0]))
    {
      var aPet := petitionSet[j];
      ghost var r := PassOn(View(), from, k, aPet.Value());
      var due := IsDue(aPet, from, k);
      ok, out := true, [];
      if due {
        assert r == (aPet.Value().(sgs := aPet.sgs + [from]), [Send(from, Assertion(aPet.key))]);
        ok, out := SendRpdus([from], Assertion(aPet.key));
        assert SendAll([from], Assertion(aPet.key)) == r.1;
        if !ok { return; }
        aPet.sgs := aPet.sgs + [from];
      } else {
        assert r == (aPet.Value(), []);
      }
      assert View().petitions == old(View().petitions)[j := r.0];
    }

    /** The first j petitions have been treated by the rule f, and out sent. */
    ghost predicate Sofar(g: State, f: Rule, j: nat, out: seq<Send>)
      reads this, petitionSet
    {
      j <= |g.petitions| && View() == Partway(g, f, j) && out == Joined(Replies(g.petitions, f), j)
    }

    /** One round of the loop over all petitions in HandlePetitionAssertion. */
    method PassNext(ghost g: State, ghost f: Rule, j: nat, from: Node, k: Key, sent: seq<Send>)
      returns (ok: bool, out: seq<Send>)
      requires Passes(g, f, from, k) && j < |petitionSet|
      requires Valid() && Sofar(g, f, j, sent)
      modifies petitionSet[j]
      ensures ok ==> Sofar(g, f, j + 1, out)
      ensures AllReplies(declared, g, f) ==> ok
    {
      PartwayNext(g, f, j);
      PassedSame(g, f, from, k, j);
      ok, out := PassPetitionOn(j, from, k);
      out := sent + out;
    }

    /** Passing petitions on to the new conduit: the loop over all petitions
        in HandlePetitionAssertion. */
    method WalkPetitions(ghost g: State, ghost f: Rule, from: Node, k: Key) returns (ok: bool, out: seq<Send>)
      requires Valid() && Sofar(g, f, 0, []) && Passes(g, f, from, k)
      modifies petitionSet
      ensures ok ==> Sofar(g, f, |petitionSet|, out)
      ensures AllReplies(declared, g, f) ==> ok
    {
      ok, out := true, [];
      var n := |petitionSet|;
      for j := 0 to n
        invariant ok ==> Sofar(g, f, j, out)
        invariant AllReplies(declared, g, f) ==> ok
      {
        if !ok { break; }
        ok, out := PassNext(g, f, j, from, k, out);
      }
    }

    method PassPetitionsOn(from: Node, k: Key) returns (ok: bool, out: seq<Send>)
      requires Valid()
      modifies petitionSet
      ensures ok ==> PassAll(old(View()), from, k) == Effect(View(), out)
      ensures AllTo(declared, PassAll(old(View()), from, k).sends) ==> ok
    {
      ok, out := true, [];
      if k.subject < 0 {
        ghost var g := View();
        PartwayEnds(g, PassOnRule(g, from, k));
        RepliesAllTo(declared, g, PassOnRule(g, from, k));
        ok, out := WalkPetitions(g, PassOnRule(g, from, k), from, k);
      }
    }

    /** The place of the petition for k, which is created if necessary. */
    method FindOrCreate(k: Key) returns (i: nat)
      requires Valid()
      modifies this`petitionSet
      ensures Valid() && i == Find(old(View().petitions), k) && i < |petitionSet|
      ensures View() == old(View()).(petitions := WithPetition(old(View().petitions), k))
      ensures petitionSet == old(petitionSet) || (fresh(petitionSet[i]) && petitionSet == old(petitionSet) + [petitionSet[i]])
    {
      i := FindPetition(k);
      if i == |petitionSet| {
        var pet := new Entry(k);
        petitionSet := petitionSet + [pet];
        assert View().petitions == old(View().petitions) + [Blank(k)];
      }
    }

    /** The asserting node joins the DGS of the petition, which may be new. */
    method EnrolNode(from: Node, k: Key) returns (i: nat)
      requires Valid()
      modifies this`petitionSet, this`subscribed, petitionSet
      ensures Valid() && View() == Enrol(old(View()), from, k)
      ensures i == Find(old(View().petitions), k) && i < |petitionSet|
      ensures petitionSet == old(petitionSet) || (fresh(petitionSet[i]) && petitionSet == old(petitionSet) + [petitionSet[i]])
    {
      i := FindOrCreate(k);
      EnrolIs(old(View()), from, k);
      AddAsker(i, from);
    }

    /** `from` joins the DGS of the i-th petition; the first to join makes the
        gateway subscribe locally. */
    method AddAsker(i: nat, from: Node)
      requires Valid() && i < |petitionSet|
      modifies this`subscribed, petitionSet[i]
      ensures View() == Joins(old(View()), i, from)
    {
      var pet := petitionSet[i];
      pet.dgs := pet.dgs + [from];
      if |pet.dgs| == 1 && (pet.key.cont == 0 || pet.key.cont == me) {
        subscribed := subscribed + {pet.key};
      }
      assert View().petitions == old(View().petitions)[i := pet.Value()];
    }

    method HandlePetitionAssertion(from: Node, k: Key) returns (ok: bool, out: seq<Send>)
      requires Valid()
      modifies this, petitionSet
      ensures Valid() && declared == old(declared)
      ensures ok ==> HandleAssertion(old(View()), from, k) == Effect(View(), out)
      ensures AllTo(declared, HandleAssertion(old(View()), from, k).sends) ==> ok
    {
      var i := EnrolNode(from, k);
      ok, out := PassPetitionsOn(from, k);
      if !ok { return; }
      var more;
      ok, more := DoAssertPetition(i);
      out := out + more;
    }
  
    // ---- Cancellation ---------------------------------------------------------------------

    /** `from` leaves the DGS of the i-th petition; when the last one leaves,
        the gateway unsubscribes locally. */
    method DropAsker(i: nat, from: Node)
      requires Valid() && i < |petitionSet|
      modifies this`subscribed, petitionSet[i]
      ensures View() == Leaves(old(View()), i, from)
    {
      var pet := petitionSet[i];
      pet.dgs := RemoveFirst(pet.dgs, from);
      if pet.dgs == [] && (pet.key.cont == 0 || pet.key.cont == me) {
        subscribed := subscribed - {pet.key};
      }
      assert View().petitions == old(View().petitions)[i := pet.Value()];
    }

    /** `from` leaves the SGS and the DGS of the j-th petition, and is told of
        our own cancellation. */
    method Forget(j: nat, from: Node) returns (ok: bool, out: seq<Send>)
      requires Valid() && j < |petitionSet|
      modifies petitionSet[j]
      ensures var p := old(petitionSet[j].Value());
        && View() == old(View()).(petitions := old(View().petitions)[j := Forgotten(from, p)])
        && (ok <==> AllTo(declared, Reply(from, p)))
        && (ok ==> out == Reply(from, p))
    {
      var aPet := petitionSet[j];
      var known := from in aPet.sgs || from in aPet.dgs;
      aPet.sgs := RemoveFirst(aPet.sgs, from);
      aPet.dgs := RemoveFirst(aPet.dgs, from);
      ok, out := true, [];
      if known {
        ok, out := SendRpdus([from], Cancellation(aPet.key));
        assert SendAll([from], Cancellation(aPet.key)) == [Send(from, Cancellation(aPet.key))];
      }
      assert View().petitions == old(View().petitions)[j := aPet.Value()];
    }

    /** One round of the loop over all petitions of a retracting neighbour. */
    method RetractFrom(j: nat, from: Node) returns (ok: bool, out: seq<Send>)
      requires Valid() && j < |petitionSet|
      modifies petitionSet[j]
      ensures var r := Retract(old(View()), from, old(petitionSet[j].Value()));
        && (AllTo(declared, r.1) ==> ok)
        && (ok ==> out == r.1 && View() == old(View()).(petitions := old(View().petitions)[j := r.0]))
    {
      ok, out := Forget(j, from);
      RetractIs(old(View()), from, old(petitionSet[j].Value()));
      if !ok { return; }
      assert View().petitions[j] == petitionSet[j].Value();
      var more;
      ok, more := CancelIfIdlePetition(j);
      out := out + more;
    }

    method RetractNext(ghost g: State, ghost f: Rule, j: nat, from: Node, sent: seq<Send>)
      returns (ok: bool, out: seq<Send>)
      requires Retracts(g, f, from) && j < |petitionSet|
      requires Valid() && Sofar(g, f, j, sent)
      modifies petitionSet[j]
      ensures ok ==> Sofar(g, f, j + 1, out)
      ensures AllReplies(declared, g, f) ==> ok
    {
      PartwayNext(g, f, j);
      RetractedSame(g, f, from, j);
      ok, out := RetractFrom(j, from);
      out := sent + out;
    }

    /** The loop over all petitions in HandlePetitionCancellation. */
    method RetractFromAll(ghost g: State, ghost f: Rule, from: Node) returns (ok: bool, out: seq<Send>)
      requires Valid() && Sofar(g, f, 0, []) && Retracts(g, f, from)
      modifies petitionSet
      ensures ok ==> Sofar(g, f, |petitionSet|, out)
      ensures AllReplies(declared, g, f) ==> ok
    {
      ok, out := true, [];
      var n := |petitionSet|;
      for j := 0 to n
        invariant ok ==> Sofar(g, f, j, out)
        invariant AllReplies(declared, g, f) ==> ok
      {
        if !ok { break; }
        ok, out := RetractNext(g, f, j, from, out);
      }
    }

    /** The neighbour that retracts itself leaves all lists. */
    method RetractNeighbour(from: Node) returns (ok: bool, out: seq<Send>)
      requires Valid()
      modifies this`declared, petitionSet
      ensures var w := Walk(old(View().petitions), RetractRule(old(View()), from));
        && (AllTo(old(declared), w.1) ==> ok)
        && (ok ==> out == w.1 && View() == old(View()).(petitions := w.0, declared := RemoveFirst(old(declared), from)))
    {
      ok, out := RetractAll(from);
      declared := RemoveFirst(declared, from);
    }

    method RetractAll(from: Node) returns (ok: bool, out: seq<Send>)
      requires Valid()
      modifies petitionSet
      ensures var w := Walk(old(View().petitions), RetractRule(old(View()), from));
        && (AllTo(declared, w.1) ==> ok)
        && (ok ==> out == w.1 && View() == old(View()).(petitions := w.0))
    {
      ghost var g := View();
      PartwayEnds(g, RetractRule(g, from));
      RepliesAllTo(declared, g, RetractRule(g, from));
      ok, out := RetractFromAll(g, RetractRule(g, from), from);
    }

    method HandlePetitionCancellation(from: Node, k: Key) returns (ok: bool, out: seq<Send>)
      requires Valid()
      modifies this`declared, this`subscribed, petitionSet
      ensures ok ==> HandleCancellation(old(View()), from, k) == Effect(View(), out)
      ensures AllTo(old(declared), HandleCancellation(old(View()), from, k).sends) ==> ok
    {
      var i := FindPetition(k);
      ok, out := true, [];
      if i == |petitionSet| || from !in petitionSet[i].dgs {
        return;
      }
      DropAsker(i, from);
      WithdrawIs(old(View()), from, k);
      if k.subject != Pseudo(from) {
        ok, out := CancelIfIdlePetition(i);
      } else {
        ok, out := RetractNeighbour(from);
      }
    }

    /** The petition branches of HandleRPDU. */
    method HandleRpdu(from: Node, r: Rpdu) returns (ok: bool, out: seq<Send>)
      requires Valid()
      modifies this, petitionSet
      ensures ok ==> Receive(old(View()), from, r) == Effect(View(), out)
      ensures AllTo(DeclaredFor(old(View()), from, r), Receive(old(View()), from, r).sends) ==> ok
    {
      match r
      case Assertion(k) =>
        if k.subject == Pseudo(from) {
          if from !in declared { declared := declared + [from]; }
        } else if from !in declared {
          return true, [];
        }
        ok, out := HandlePetitionAssertion(from, k);
      case Cancellation(k) =>
        ok, out := HandlePetitionCancellation(from, k);
    }

    // ---- Local subscribers ------------------------------------------------------------------

    method AddToDms(i: nat, m: ModuleId)
      requires Valid() && i < |petitionSet|
      modifies petitionSet[i]
      ensures var p := old(petitionSet[i].Value());
        View() == old(View()).(petitions := old(View().petitions)[i := p.(dms := p.dms + [m])])
    {
      petitionSet[i].dms := petitionSet[i].dms + [m];
      assert View().petitions == old(View().petitions)[i := petitionSet[i].Value()];
    }

    method DoAddPetitioner(m: ModuleId, k: Key) returns (ok: bool, out: seq<Send>)
      requires Valid()
      modifies this`petitionSet, petitionSet
      ensures Valid()
      ensures ok ==> AddPetitioner(old(View()), m, k) == Effect(View(), out)
      ensures AllTo(declared, AddPetitioner(old(View()), m, k).sends) ==> ok
    {
      var i := FindPetition(k);
      if i < |petitionSet| && m in petitionSet[i].dms {
        return true, [];
      }
      i := FindOrCreate(k);
      AdmitIs(old(View()), m, k);
      AddToDms(i, m);
      ok, out := DoAssertPetition(i);
    }

    method DoRemovePetitioner(m: ModuleId, k: Key) returns (ok: bool, out: seq<Send>)
      requires Valid()
      modifies petitionSet
      ensures ok ==> RemovePetitioner(old(View()), m, k) == Effect(View(), out)
      ensures AllTo(declared, RemovePetitioner(old(View()), m, k).sends) ==> ok
    {
      var i := FindPetition(k);
      if i == |petitionSet| {
        return true, [];
      }
      DropFromDms(i, m);
      DropIs(old(View()), i, m);
      ok, out := CancelIfIdlePetition(i);
    }

    method DropFromDms(i: nat, m: ModuleId)
      requires Valid() && i < |petitionSet|
      modifies petitionSet[i]
      ensures View() == DropModule(old(View()), i, m)
    {
      petitionSet[i].dms := RemoveFirst(petitionSet[i].dms, m);
      assert View().petitions == old(View().petitions)[i := petitionSet[i].Value()];
    }

    method HandleSubscription(m: ModuleId, k: Key) returns (ok: bool, out: seq<Send>)
      requires Valid()
      modifies this`petitionSet, petitionSet
      ensures Valid()
      ensures ok ==> Subscribe(old(View()), m, k) == Effect(View(), out)
      ensures AllTo(declared, Subscribe(old(View()), m, k).sends) ==> ok
    {
      ok, out := true, [];
      if k.cont != me && m != self {
        ok, out := DoAddPetitioner(m, k);
      }
    }

    method HandleUnsubscription(m: ModuleId, k: Key) returns (ok: bool, out: seq<Send>)
      requires Valid()
      modifies petitionSet
      ensures ok ==> Unsubscribe(old(View()), m, k) == Effect(View(), out)
      ensures AllTo(declared, Unsubscribe(old(View()), m, k).sends) ==> ok
    {
      ok, out := true, [];
      if k.cont != me && m != self {
        ok, out := DoRemovePetitioner(m, k);
      }
    }
  
    // ---- Termination ------------------------------------------------------------------------

    /** The neighbours to be told, and what remains of the SGS. */
    method SayFarewell(sgs: seq<Node>) returns (told: seq<Node>, rest: seq<Node>)
      ensures (told, rest) == Farewell(declared, sgs)
    {
      told, rest := [], sgs;
      for i := 0 to |declared|
        invariant (told, rest) == Farewell(declared[..i], sgs)
      {
        assert declared[..i+1][..i] == declared[..i];
        if declared[i] in rest {
          told := told + [declared[i]];
          rest := RemoveFirst(rest, declared[i]);
        }
      }
      assert declared[..|declared|] == declared;
    }

    method TerminateGateway() returns (out: seq<Send>)
      requires Valid()
      modifies petitionSet
      ensures Terminate(old(View())) == Effect(View(), out)
    {
      var i := FindSubjectOf(Pseudo(me));
      if i == |petitionSet| {
        return [];
      }
      var told, rest := SayFarewell(petitionSet[i].sgs);
      petitionSet[i].sgs := rest;
      assert View().petitions == old(View().petitions)[i := petitionSet[i].Value()];
      out := SendAll(told, Cancellation(OwnKey(me)));
    }

    method FindSubjectOf(subject: int) returns (i: nat)
      ensures i == FindSubject(View().petitions, subject)
    {
      ghost var ps := View().petitions;
      i := 0;
      while i < |petitionSet| && petitionSet[i].key.subject != subject
        invariant 0 <= i <= |petitionSet| && forall j :: 0 <= j < i ==> ps[j].key.subject != subject
      {
        assert ps[i] == petitionSet[i].Value();
        i := i + 1;
      }
      if i < |petitionSet| { assert ps[i] == petitionSet[i].Value(); }
    }

    // ---- Messages of application modules ------------------------------------------------------

    /** The loop over all petitions in ForwardPublishedMessage and, with the
        sending gateway to be skipped, in HandlePublishedMessage. */
    method CollectNodes(within: (nat, nat) -> bool, m: Message, skip: Option<Node>) returns (nodes: seq<Node>)
      ensures nodes == Recipients(within, m, View().petitions, skip)
    {
      ghost var ps := View().petitions;
      nodes := [];
      for i := 0 to |petitionSet|
        invariant nodes == Recipients(within, m, ps[..i], skip)
      {
        assert ps[i] == petitionSet[i].Value();
        RecipientsNext(within, m, ps, i, skip);
        nodes := CollectFrom(petitionSet[i], within, m, skip, nodes);
      }
      assert ps[..|ps|] == ps;
    }

    method CollectFrom(pet: Entry, within: (nat, nat) -> bool, m: Message, skip: Option<Node>, nodes: seq<Node>)
      returns (r: seq<Node>)
      ensures r == WithRecipients(within, m, pet.Value(), skip, nodes)
    {
      r := nodes;
      if Satisfies(within, m, pet.key) {
        var others := pet.dgs;
        if skip.Some? { others := SubtractNodeSets(pet.dgs, [skip.value]); }
        r := AddNodeSets(nodes, others);
      }
    }

    method CollectModules(within: (nat, nat) -> bool, m: Message) returns (modules: seq<ModuleId>)
      ensures modules == Readers(within, m, View().petitions)
    {
      ghost var ps := View().petitions;
      modules := [];
      for i := 0 to |petitionSet|
        invariant modules == Readers(within, m, ps[..i])
      {
        assert ps[i] == petitionSet[i].Value();
        ReadersNext(within, m, ps, i);
        modules := CollectReaders(petitionSet[i], within, m, modules);
      }
      assert ps[..|ps|] == ps;
    }

    method CollectReaders(pet: Entry, within: (nat, nat) -> bool, m: Message, modules: seq<ModuleId>)
      returns (r: seq<ModuleId>)
      ensures r == WithReaders(within, m, pet.Value(), modules)
    {
      r := if Satisfies(within, m, pet.key) then Union(modules, pet.dms) else modules;
    }

    method ForwardPublishedMessage(within: (nat, nat) -> bool, m: Message) returns (nodes: seq<Node>)
      ensures nodes == Recipients(within, m, View().petitions, None)
      ensures NoRepeats(nodes)
    {
      nodes := CollectNodes(within, m, None);
      RecipientsOnce(within, m, View().petitions, None);
    }

    method HandlePublishedMessage(within: (nat, nat) -> bool, m: Message, from: Node)
      returns (nodes: seq<Node>, modules: seq<ModuleId>)
      ensures nodes == Recipients(within, m, View().petitions, Some(from))
      ensures modules == Readers(within, m, View().petitions)
      ensures NoRepeats(nodes) && from !in nodes && NoRepeats(modules)
    {
      nodes := CollectNodes(within, m, Some(from));
      modules := CollectModules(within, m);
      RecipientsOnce(within, m, View().petitions, Some(from));
      ReadersOnce(within, m, View().petitions);
    }

    method RoutePrivateMessage(dest: nat) returns (r: Routing)
      ensures r == Conduct(View(), dest)
    {
      if dest == me { return Here; }
      var n := GetConduitForContinuum(dest);
      r := match n case None => Nowhere case Some(node) => Onward(node);
    }

    method RouteAnnouncedMessage(dest: nat, from: Node) returns (nodes: seq<Node>, here: bool)
      ensures nodes == Announce(View(), dest, from) && here == AnnouncedHere(View(), dest)
    {
      nodes, here := [], true;
      if dest == 0 {
        if tree { nodes := SubtractNodeSets(declared, [from]); }
      } else if dest != me {
        here := false;
        var n := GetConduitForContinuum(dest);
        if n.Some? { nodes := [n.value]; }
      }
    }

    method RouteTargetedMessage(dest: nat) returns (nodes: seq<Node>)
      ensures nodes == ForwardTargeted(View(), dest)
    {
      if dest == 0 { return declared; }
      var n := GetConduitForContinuum(dest);
      nodes := match n case None => [] case Some(node) => [node];
    }
  }

  // ---- The specification functions in the order in which the methods work ----------------

  /** ps with a petition for k, blank if it is new. */
  function WithPetition(ps: seq<Petition>, k: Key): seq<Petition> {
    if Find(ps, k) < |ps| then ps else ps + [Blank(k)]
  }

  function Joins(g: State, i: nat, from: Node): State
    requires i < |g.petitions|
  {
    var p := g.petitions[i];
    var p' := p.(dgs := p.dgs + [from]);
    g.(petitions := g.petitions[i := p'],
       subscribed := if |p'.dgs| == 1 && (p.key.cont == 0 || p.key.cont == g.me)
                     then g.subscribed + {p.key} else g.subscribed)
  }

  lemma EnrolIs(g: State, from: Node, k: Key)
    ensures var i := Find(g.petitions, k);
      && i < |WithPetition(g.petitions, k)|
      && Enrol(g, from, k) == Joins(g.(petitions := WithPetition(g.petitions, k)), i, from)
  {
    var i, ps := Find(g.petitions, k), WithPetition(g.petitions, k);
    assert ps[i] == Lookup(g.petitions, k);
    var p := ps[i].(dgs := ps[i].dgs + [from]);
    assert ps[i := p] == if i < |g.petitions| then g.petitions[i := p] else g.petitions + [p];
  }

  function Leaves(g: State, i: nat, from: Node): State
    requires i < |g.petitions|
  {
    var p := g.petitions[i];
    var p' := p.(dgs := RemoveFirst(p.dgs, from));
    g.(petitions := g.petitions[i := p'],
       subscribed := if p'.dgs == [] && (p.key.cont == 0 || p.key.cont == g.me)
                     then g.subscribed - {p.key} else g.subscribed)
  }

  lemma WithdrawIs(g: State, from: Node, k: Key)
    ensures var i := Find(g.petitions, k);
      i < |g.petitions| ==> Withdraw(g, from, k) == Leaves(g, i, from)
  {
  }

  function DropModule(g: State, i: nat, m: ModuleId): State
    requires i < |g.petitions|
  {
    var p := g.petitions[i];
    g.(petitions := g.petitions[i := p.(dms := RemoveFirst(p.dms, m))])
  }

  lemma DropIs(g: State, i: nat, m: ModuleId)
    requires i < |g.petitions|
    ensures var p, g1 := g.petitions[i], DropModule(g, i, m);
      CancelAt(g1, i, g1.petitions[i]) == CancelAt(g, i, p.(dms := RemoveFirst(p.dms, m)))
  {
    var p := g.petitions[i].(dms := RemoveFirst(g.petitions[i].dms, m));
    var q := CancelIfIdle(g, p).0;
    assert g.petitions[i := p][i := q] == g.petitions[i := q];
  }

  function Forgotten(from: Node, p: Petition): Petition {
    p.(sgs := RemoveFirst(p.sgs, from), dgs := RemoveFirst(p.dgs, from))
  }

  function Reply(from: Node, p: Petition): seq<Send> {
    if from in p.sgs || from in p.dgs then [Send(from, Cancellation(p.key))] else []
  }

  lemma RetractIs(g: State, from: Node, p: Petition)
    ensures var c := CancelIfIdle(g, Forgotten(from, p));
      && Retract(g, from, p) == (c.0, Reply(from, p) + c.1)
      && (forall s :: s in Retract(g, from, p).1 <==> s in Reply(from, p) || s in c.1)
  {
  }

  lemma AdmitIs(g: State, m: ModuleId, k: Key)
    ensures var i, ps := Find(g.petitions, k), WithPetition(g.petitions, k);
      && i < |ps| && ps[i] == Lookup(g.petitions, k)
      && Admit(g, m, k) == g.(petitions := ps[i := ps[i].(dms := ps[i].dms + [m])])
  {
    var i, ps := Find(g.petitions, k), WithPetition(g.petitions, k);
    assert ps[i] == Lookup(g.petitions, k);
    var p := ps[i].(dms := ps[i].dms + [m]);
    assert ps[i := p] == if i < |g.petitions| then g.petitions[i := p] else g.petitions + [p];
  }

  /** g when its first j petitions have been treated by the rule f. */
  ghost function Partway(g: State, f: Rule, j: nat): (g': State)
    ensures |g'.petitions| == |g.petitions|
  {
    g.(petitions := seq(|g.petitions|, i requires 0 <= i < |g.petitions| =>
      if i < j then f(g.petitions[i]).0 else g.petitions[i]))
  }

  lemma PartwayNext(g: State, f: Rule, j: nat)
    requires j < |g.petitions|
    ensures var g' := Partway(g, f, j);
      && g'.petitions[j] == g.petitions[j]
      && Partway(g, f, j + 1) == g'.(petitions := g'.petitions[j := f(g.petitions[j]).0])
  {
    var g' := Partway(g, f, j);
    assert Partway(g, f, j + 1).petitions == g'.petitions[j := f(g.petitions[j]).0];
  }

  lemma PartwayEnds(g: State, f: Rule)
    ensures Partway(g, f, 0) == g
    ensures Partway(g, f, |g.petitions|) == g.(petitions := Walk(g.petitions, f).0)
  {
    assert Partway(g, f, 0).petitions == g.petitions;
    assert Partway(g, f, |g.petitions|).petitions == Walk(g.petitions, f).0;
  }

  /** Whatever f sends goes to one of the nodes. */
  ghost predicate AllReplies(nodes: seq<Node>, g: State, f: Rule) {
    forall i :: 0 <= i < |g.petitions| ==> AllTo(nodes, f(g.petitions[i]).1)
  }

  lemma RepliesAllTo(nodes: seq<Node>, g: State, f: Rule)
    ensures AllTo(nodes, Walk(g.petitions, f).1) ==> AllReplies(nodes, g, f)
  {
    var replies := Replies(g.petitions, f);
    forall i | 0 <= i < |g.petitions| ensures forall s :: s in f(g.petitions[i]).1 ==> s in Joined(replies, |replies|) {
      JoinedKeeps(replies, i, |replies|);
    }
  }

  lemma AssertAtIs(g: State, i: nat)
    requires i < |g.petitions|
    ensures var p := g.petitions[i];
      AssertAt(g, i) ==
      if Assertable(g, p)
      then Effect(g.(petitions := g.petitions[i := p.(sgs := Union(p.sgs, AssertionSet(g, p)))]),
                  SendAll(AssertionSet(g, p), Assertion(p.key)))
      else Effect(g, [])
  {
    assert g.petitions[i := g.petitions[i]] == g.petitions;
  }

  /** f is PassOnRule(g, from, k). */
  ghost predicate Passes(g: State, f: Rule, from: Node, k: Key) {
    forall p {:trigger PassOn(g, from, k, p)} :: f(p) == PassOn(g, from, k, p)
  }

  /** f is RetractRule(g, from). */
  ghost predicate Retracts(g: State, f: Rule, from: Node) {
    forall p {:trigger Retract(g, from, p)} :: f(p) == Retract(g, from, p)
  }

  lemma PassedSame(g: State, f: Rule, from: Node, k: Key, j: nat)
    requires Passes(g, f, from, k) && j < |g.petitions|
    ensures PassOn(Partway(g, f, j), from, k, g.petitions[j]) == f(g.petitions[j])
  {
    var g' := Partway(g, f, j);
    forall i | 0 <= i < |g.petitions|
      ensures g'.petitions[i].key == g.petitions[i].key && g'.petitions[i].dgs == g.petitions[i].dgs {
      var p := g.petitions[i];
      assert f(p) == PassOn(g, from, k, p);
    }
    SameAssertionSet(g, g', g.petitions[j]);
    assert f(g.petitions[j]) == PassOn(g, from, k, g.petitions[j]);
  }

  lemma RetractedSame(g: State, f: Rule, from: Node, j: nat)
    requires Retracts(g, f, from) && j < |g.petitions|
    ensures Retract(Partway(g, f, j), from, g.petitions[j]) == f(g.petitions[j])
  {
    assert f(g.petitions[j]) == Retract(g, from, g.petitions[j]);
  }

  lemma {:induction false} JoinedKeeps(lists: seq<seq<Send>>, j: nat, n: nat)
    requires j < n <= |lists|
    ensures forall s :: s in lists[j] ==> s in Joined(lists, n)
  {
    if j < n - 1 { JoinedKeeps(lists, j, n - 1); }
  }

  lemma SameAssertionSet(g: State, g': State, p: Petition)
    requires SameAskers(g.petitions, g'.petitions) && g'.declared == g.declared
    ensures AssertionSet(g', p) == AssertionSet(g, p)
  {
    ConduitSame(g.petitions, g'.petitions, p.key.cont);
  }
}
