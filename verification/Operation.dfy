/** Gateways at work in the network: what they do in place is what the network
    model says, and they never fail to send; what they do with the messages
    for modules of their own continuum. */
module Operation {
  import opened Lists
  import opened Topology
  import opened Petitions
  import opened Relay
  import opened Invitations
  import opened Network
  import opened Guarantees
  import opened Gateways

  method TakeDelivery(gw: Gateway, from: Node, r: Rpdu, ghost t: Tree, ghost net: Net)
    returns (ok: bool, out: seq<Send>)
    requires gw.Valid() && Reachable(t, net) && Enabled(net, Deliver(from, gw.me))
    requires gw.View() == net.gates[gw.me] && r == net.links[(from, gw.me)][0]
    modifies gw, gw.petitionSet
    ensures ok && Reaction(net, Deliver(from, gw.me)) == (gw.me, Effect(gw.View(), out))
  {
    NeverUndeclared(t, net, Deliver(from, gw.me));
    ok, out := gw.HandleRpdu(from, r);
  }

  method TakeSubscription(gw: Gateway, m: ModuleId, k: Key, ghost t: Tree, ghost net: Net)
    returns (ok: bool, out: seq<Send>)
    requires gw.Valid() && Reachable(t, net) && Enabled(net, Network.Joined(gw.me, m, k))
    requires gw.View() == net.gates[gw.me]
    modifies gw, gw.petitionSet
    ensures ok && Reaction(net, Network.Joined(gw.me, m, k)) == (gw.me, Effect(gw.View(), out))
  {
    NeverUndeclared(t, net, Network.Joined(gw.me, m, k));
    ok, out := gw.HandleSubscription(m, k);
  }

  method TakeUnsubscription(gw: Gateway, m: ModuleId, k: Key, ghost t: Tree, ghost net: Net)
    returns (ok: bool, out: seq<Send>)
    requires gw.Valid() && Reachable(t, net) && Enabled(net, Left(gw.me, m, k))
    requires gw.View() == net.gates[gw.me]
    modifies gw, gw.petitionSet
    ensures ok && Reaction(net, Left(gw.me, m, k)) == (gw.me, Effect(gw.View(), out))
  {
    NeverUndeclared(t, net, Left(gw.me, m, k));
    ok, out := gw.HandleUnsubscription(m, k);
  }

  // ---- Messages for modules here and elsewhere ---------------------------------------------------

  /** to: the module addressed, which is given the message if it has invited
      it. */
  method HandlePrivateMessage(gw: Gateway, invitations: InvitationSet, within: (nat, nat) -> bool,
                              msg: Option<Message>, dest: nat, to: ModuleId) returns (r: Routing, given: bool)
    ensures r == Conduct(gw.View(), dest)
    ensures given <==> r == Here && IsInvited(within, invitations.View(), msg, to)
  {
    r := gw.RoutePrivateMessage(dest);
    given := false;
    if r == Here {
      given := invitations.MessageIsInvited(within, msg, to);
    }
  }

  /** unit, role: the modules to which it is announced. */
  method HandleAnnouncedMessage(gw: Gateway, invitations: InvitationSet, within: (nat, nat) -> bool,
                                roleOf: ModuleId -> int, msg: Option<Message>, dest: nat, unit: nat, role: nat,
                                from: Node) returns (nodes: seq<Node>, modules: seq<ModuleId>)
    ensures nodes == Announce(gw.View(), dest, from) && NoRepeats(modules)
    ensures forall m :: m in modules <==>
      AnnouncedHere(gw.View(), dest) && IsInvited(within, invitations.View(), msg, m)
        && Addressed(within, roleOf, m, unit, role)
  {
    var here: bool;
    nodes, here := gw.RouteAnnouncedMessage(dest, from);
    modules := [];
    if here {
      modules := invitations.Recipients(within, roleOf, msg, unit, role);
    }
  }

  const SendOnReception := 5
  const AnnounceOnReception := 6

  /** Private messages are for one continuum, announcements for one or all. */
  predicate Targeted(control: int, dest: int) {
    dest >= 0 && (control == AnnounceOnReception || (control == SendOnReception && dest != 0))
  }

  /** Neither for no continuum, nor private for all, nor of another kind. */
  lemma TargetedExactly(control: int, dest: int)
    ensures Targeted(AnnounceOnReception, dest) <==> dest >= 0
    ensures Targeted(SendOnReception, dest) <==> dest > 0
    ensures control != AnnounceOnReception && control != SendOnReception ==> !Targeted(control, dest)
  {
  }

  /** What a module here has sent its gateway for modules elsewhere; an
      envelope that is neither is dropped. */
  method ForwardTargetedMessage(gw: Gateway, control: int, dest: int) returns (nodes: seq<Node>)
    ensures !Targeted(control, dest) ==> nodes == []
    ensures Targeted(control, dest) ==> nodes == ForwardTargeted(gw.View(), dest)
  {
    if dest < 0 { return []; }
    if dest == 0 && control != AnnounceOnReception { return []; }
    if control != SendOnReception && control != AnnounceOnReception { return []; }
    nodes := gw.RouteTargetedMessage(dest);
  }
}
