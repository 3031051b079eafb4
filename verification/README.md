# Verified model of the Asynchronous Message Service

A Dafny model of the Asynchronous Message Service (AMS) and the Remote AMS
(RAMS) gateway of the repository, and proofs of what they promise. Run
`dafny verify dfyconfig.toml`.

| files | what they model |
|---|---|
| `Topology`, `Petitions`, `Effects`, `Soundness`, `Shrinking`, `Links`, `Network`, `Guarantees` | the petition network: each gateway a state, each handler a function from a state to a state and the RPDUs sent, links as FIFO sequences; the invariants over all runs |
| `Gateway` | the same handlers as the source has them, on lists of petition objects edited in place, proved against those functions |
| `LocalInterest` | which local modules are served |
| `Subscriptions`, `Loads`, `Weights`, `Settling` | what gateways are subscribed to; that the exchange of petitions comes to rest |
| `Relay`, `Matching`, `Flood`, `Delivery`, `Mesh`, `MeshSettling` | published, private and announced messages, on a tree and in a mesh |
| `Invitations`, `Operation` | the invitation set; the gateway's handlers at work in the network |
| `Units`, `RuleTables` | the pointer tree of units; reception rules and their searches |
| `Roles`, `Transmission`, `Resync`, `Interests` | authorized roles, transmission rules, resynchronization, and the two linked indexes that hold the rules |
| `Events` | the event queue and its index of last events |
| `Octets`, `Envelopes`, `Codec`, `Cursors` | RAMS envelopes and enclosures; contact summaries and declarations, written, parsed and skipped |
| `Registrar`, `Framing` | the registrar's census; MAMS messages on the wire |
| `Samples` | messages of known contents, octet by octet |
| `Lists` | linked lists as sequences |

Main results, hardest first:

- On a tree of gateways, in every reachable state: conduits point the right
  way, the two ends of a link agree once what is in flight is applied, interest
  is never lost, and nothing is asserted twice (`Guarantees`). The invariant
  behind them is `Network.Inv`, kept by every event (`Network.StepKeeps`).
- From every reachable state deliveries alone lead to rest, because each makes
  the network lighter (`Settling`, and `MeshSettling` for a mesh).
- The modules served are exactly those whose last notice is a subscription
  (`LocalInterest.ServedExactly`).
- At rest, published messages reach every gateway that wants them, private
  messages arrive in as many hops as the distance, and announcements reach
  everybody, each exactly once (`Delivery`, and `Mesh` for a mesh); relaying
  can always be completed (`Flood.FloodEnds`). Even while petitions change, no
  gateway handles a published message twice
  (`Delivery.PublishedTerminatesInFlux`).
- A gateway is subscribed to exactly what its neighbours want, and the
  invitation set lists exactly the invitations not ended, except after certain
  events, which are characterized (`Subscriptions.ExactKept`,
  `Invitations.RightKept`).
- A resynchronization leaves exactly what is declared (`Resync.ResyncIsExact`,
  in terms of the declaration `Resync.ResyncIsAsDeclared`, carried over to the
  linked records by `Interests.Mib.Resynchronize`), and the two indexes always
  agree.
- The pointer tree of units is the prefix order of their names after every
  creation and erasure, and the searches that rely on it are complete and find
  the most specific rule.
- The index of last events makes insertion stable.
- What is built is what is parsed and what is skipped (`Envelopes`, `Codec`,
  `Cursors`, `Framing`); where that fails, the exact condition is given.
- A MAMS message is delivered exactly if the text is a frame of it, rightly
  summed and signed (`Framing.DeliveredExactly`); a module stays registered
  exactly as long as it is heard of in time (`Registrars.ImputedIfUnheard`).
- What does not hold, each with an input and the exact condition: no
  subscription outlives its reason (`Subscriptions.StaleExample`), an
  invitation can be ended (`Invitations.InvitedForGood`, `InvitedTwice`), a
  petition matches its own domain only (`Envelopes.TakenForAnother`), new units
  keep rules in order (`RuleTables.OrderLost`), termination is imputed to
  modules that have missed three heartbeats (`Registrars.InnocentTerminated`).

## Assumptions

- RAMS nodes are identified by their continuum numbers, which are positive, as
  are subject numbers that do not stand for a continuum; subject -C stands for
  continuum C. The continuum of a petition is 0 (all) or a node.
- The network is a tree, as `ramsNetIsTree` says (`Mesh` is about the other
  kind), and links deliver in order and without loss. Gateways do not restart, so no petition state comes from
  playback. All gateways start with their declarations sent; a gateway that
  starts later is one whose declarations are delivered later. A gateway may
  terminate at any time, after which nothing is delivered to it.
- Each handler runs to its end under the MIB lock, so it is one step. A send
  fails only for want of a declaration of the destination.
- No ordinary module subscribes or unsubscribes to the subjects that stand for
  continua; the petition RPDUs and the message RPDUs of a link are kept apart.
- Whether a plain char is signed is a parameter (`signed`) wherever the code
  depends on it: in `EnvelopeHeader`, in the count of delivery vectors and in
  the registrar's list of modules. The network model takes petitions as their
  four fields; by `Envelopes.MatchesItsDomain` that is right exactly if a plain char
  is unsigned or the low octets of continuum and unit are below 128.
- `Codec`: 1 to 15 interfaces per delivery vector, fewer than 128 vectors, no
  `=` in service names, no `,` in endpoint names and no NUL in any. A vector
  without interfaces would have no NUL for the registrar to stop at.
- `Interests`: subjects and modules are known from the start, and subject 0
  is one of them; the units of the venture do not change while rules are held
  (`RuleTables.OrderedInLargerVenture` and `OrderedInSmallerVenture` say what
  their creation and erasure do to the order); the lists of authorized
  receivers are those of the MIB as loaded.
- `Registrar`: module numbers in messages are those of modules, 1 to 255, which
  the code relies on for the number in a reconnect message. The comparison of
  heartbeats with `N6_COUNT` is that of the code: registration above three,
  reconnection up to three. The text of a registration or reconnection and
  what the sender's role number stands for are given with the event.
- `Framing`: both sides hold the same names and keys, and the cipher is the
  identity of `ams/library/crypt.c`.

Where code and comments differ the code is followed. The comment at
`ams/library/libams.c:1903-1905` speaks of turning a flag off; the code deletes
the rule. `ams/library/amsd.c` does not reset the count of missed heartbeats of
a number that is given to another module, so imputed termination is not always
about that module (`Registrars.ImputedExactly`). `HandleInvitation` searches the
invitation set for continuum 0, whatever the continuum of the invitation.

## Model

| member | source | states |
|---|---|---|
| Guarantees.ConduitDirection | ams/rams/librams.c:1734-1940 | Safety over all runs on a tree: a neighbour in the DGS of the petition for continuum C's declaration is the next hop on the path to C, and so is the sender of any such assertion in flight; C is never the gateway itself |
| Guarantees.LinkAgreement | ams/rams/librams.c:1569-1708 | Safety over all runs: for neighbours A and B that have not left, B is in A's SGS for k exactly if A is in B's DGS for k once the RPDUs in flight from A to B are applied, and those RPDUs alternate; no DGS, SGS, declaration list or petition set has a duplicate |
| Guarantees.InterestKept | ams/rams/librams.c:1585-1618 | Safety over all runs: if a gateway has local subscribers to a petition or was asked for it by somebody other than y, it has asked y, where y is any declared neighbour for an all-continua petition, and the conduit for a petition of one continuum |
| Guarantees.SubscribedForNeighbours | ams/rams/librams.c:1753-1816 | Safety over all runs: a gateway is subscribed in its own continuum to whatever a neighbour has asked it for there |
| Guarantees.NeverUndeclared | ams/rams/librams.c:988-1052 | In every reachable state, every RPDU an event makes a gateway send goes to a neighbour that it has declared at the moment of sending, so no send fails for want of a declaration |
| Operation.TakeDelivery | ams/rams/librams.c:1461-1535 | In every reachable state the gateway's own handler of a received petition RPDU succeeds, and its new state and sends are those of the network's step |
| Operation.TakeSubscription | ams/rams/librams.c:1208-1230 | The same for the handler of a local subscription |
| Operation.TakeUnsubscription | ams/rams/librams.c:1232-1252 | The same for the handler of a local unsubscription |
| LocalInterest.SubscribeDms | ams/rams/librams.c:2561-2632 | A subscription by another module, for all continua or any but the gateway's own, puts the module into the DMS of just that petition, once; any other subscription changes no DMS |
| LocalInterest.UnsubscribeDms | ams/rams/librams.c:2634-2687 | The end of such a subscription takes the module out of just that DMS |
| LocalInterest.ReceiveDms | ams/rams/librams.c:1461-1535 | No RPDU of another gateway changes a DMS |
| LocalInterest.ServedExactly | ams/rams/librams.c:1208-1252 | In every run from the start of a network, a module is in the DMS of a petition exactly if it is not the gateway's own, the petition is not about the gateway's own continuum, and its last notice about the petition is a subscription; the gateway's own module is in that of its declaration |
| LocalInterest.SubscriberReached | ams/rams/librams.c:2171-2297 | In a quiescent tree a message published anywhere is handed to every module elsewhere whose last notice about some petition that the message satisfies is a subscription, and its gateway handles the message exactly once |
| LocalInterest.OnlySubscribers | ams/rams/librams.c:2171-2297 | In every reachable state the modules to which a gateway hands a message are exactly the modules with such a subscription |
| Petitions.StrangersIgnored | ams/rams/librams.c:1461-1535 | An assertion by a neighbour that has not declared itself, other than of its declaration, and a cancellation by one that has not asked for the petition, change nothing and are not answered |
| Petitions.DeclaredAfterwards | ams/rams/librams.c:1461-1535 | The neighbours taken as declared when an assertion is handled are those declared afterwards |
| Subscriptions.AssertionExact | ams/rams/librams.c:1753-1816 | If a gateway is subscribed in its own continuum to exactly what neighbours have asked it for there, and its own declaration, an expected assertion keeps it so |
| Subscriptions.CancellationExact | ams/rams/librams.c:1999-2060 | So does an expected cancellation that is no retraction |
| Subscriptions.StaleSubscription | ams/rams/librams.c:2080-2150 | A retraction does not: the gateway stays subscribed to any petition for its continuum that the retracting neighbour alone had asked for |
| Subscriptions.StaleExample | ams/rams/librams.c:2080-2150 | For example at any gateway of any tree that receives a neighbour's declaration, its assertion of one petition, and its retraction |
| Subscriptions.RetractionExact | ams/rams/librams.c:2080-2150 | A retraction keeps the subscriptions exact if and only if there is no such petition |
| Subscriptions.ExactKept | ams/rams/librams.c:1461-1535 | Every event in the network keeps a gateway's subscriptions exact if and only if it is not such a retraction |
| Subscriptions.ExactThroughout | ams/rams/librams.c:1461-1535 | In every run without such retractions every gateway is at all times subscribed to exactly what neighbours have asked it for |
| Subscriptions.ExactAtStart | ams/rams/librams.c:826-862 | The subscriptions are exact at the start |
| Settling.DeliveryLightens | ams/rams/librams.c:1569-1708 | Each delivery of an RPDU lowers the weight of the network, a number that bounds all that the RPDUs in flight can still set off |
| Settling.DeliveriesAreBounded | ams/rams/librams.c:1461-1535 | From every reachable state, runs of deliveries alone are bounded: the exchange of petitions cannot go on by itself |
| Settling.Settles | ams/rams/librams.c:1461-1535 | From every reachable state, whoever has terminated, deliveries alone lead to one in which nothing can be delivered any more |
| Settling.ComesToRest | ams/rams/librams.c:1461-1535 | If no gateway has terminated, that state is quiescent |
| Settling.SettledAgrees | ams/rams/librams.c:1569-1708 | In such a state neighbours that have not terminated are declared to each other, and B is in A's SGS exactly if A is in B's DGS |
| Settling.RestExists | ams/rams/librams.c:826-862 | Every tree of gateways comes to a quiescent state from its start, so the results about networks at rest are about something |
| Weights.AssertionWeighs | ams/rams/librams.c:1734-1940 | What a gateway sends and notes on an expected assertion weighs less than the assertion |
| Weights.CancellationWeighs | ams/rams/librams.c:1942-2169 | The same for a cancellation or retraction |
| Guarantees.StreamAlternates | ams/rams/librams.c:1569-1708 | Over any run, what A sends B about one petition alternates between assertion and cancellation, and A's SGS shows the last of them |
| Guarantees.NeverAssertedTwice | ams/rams/librams.c:826-862 | From the start of the network, A never asserts a petition to B twice without a cancellation between |
| Network.InitInv | ams/rams/librams.c:826-862 | The state in which every gateway has sent its declaration satisfies the network invariant |
| Network.StepKeeps | ams/rams/librams.c:1461-1535 | Each event - delivery of an RPDU, local subscription or unsubscription, termination of a gateway - keeps the network invariant |
| Network.RunKeeps | ams/rams/librams.c:1461-1535 | Every run keeps the network invariant |
| Network.DepartureKeeps | ams/rams/librams.c:988-1052 | A gateway that terminates leaves the rest of the network in the invariant |
| Links.ReceiverKeeps | ams/rams/librams.c:1753-1816 | Delivering the first RPDU in flight keeps the agreement of a link: a DGS gains its sender at most once |
| Links.SenderKeeps | ams/rams/librams.c:1098-1190 | What a gateway sends keeps the agreement of a link with its own SGS |
| Links.HeadIsExpected | ams/rams/librams.c:1780-1793 | The first RPDU in flight is never an assertion from a node already in the DGS, nor a cancellation from one that is not: the second copy that a repeated assertion would append never arises |
| Soundness.AssertionKeeps | ams/rams/librams.c:1734-1940 | An expected assertion leaves a gateway sound: directions, completeness towards declared neighbours, and no duplicates; it changes the SGS exactly as it tells each neighbour |
| Soundness.AssertionCompletes | ams/rams/ramscommon.c:793-867 | After an assertion every neighbour in the assertion set of the petition has been asked |
| Shrinking.CancellationKeeps | ams/rams/librams.c:1942-2169 | An expected cancellation, retraction included, leaves a gateway sound and tells each other neighbour exactly the petitions dropped |
| Shrinking.RemovalKeeps | ams/rams/librams.c:2634-2687 | Removing a local petitioner leaves a gateway sound |
| Shrinking.AdditionKeeps | ams/rams/librams.c:2561-2632 | Adding a local petitioner leaves a gateway sound and asks the neighbours that have to be asked |
| Shrinking.TerminationEffect | ams/rams/librams.c:988-1052 | A terminating gateway cancels its declaration with each neighbour that has it, once each |
| Effects.AssertionEffect | ams/rams/librams.c:1569-1621 | The assertion of one petition adds to its SGS exactly the nodes it sends to, once each |
| Effects.CancellationEffect | ams/rams/librams.c:1623-1708 | The cancellation of one petition removes from its SGS exactly the nodes it sends to, and touches no other petition |
| Topology.UniqueRoute | ams/rams/librams.c:1734-1940 | Every simple path of the tree towards a node follows the next hops, so the conduit is the neighbour on the path |
| Topology.HopCloser | ams/rams/ramscommon.c:746-773 | The next hop towards a node is a neighbour one step closer to it |
| Gateways.Gateway.constructor | ams/rams/librams.c:826-862 | A new gateway has its own declaration petition and no neighbours |
| Gateways.Gateway.FindPetition | ams/rams/ramscommon.c:387-404 | The index of the petition about a domain, or the length of the list |
| Gateways.Gateway.GetConduitForContinuum | ams/rams/ramscommon.c:746-773 | The neighbour through which a continuum is reached, as the specification function has it; none if there is none |
| Gateways.Gateway.GetAssertionSet | ams/rams/ramscommon.c:793-867 | The nodes a petition still has to be asserted to, by the three tests for the domain, the conduit and the nodes asked already |
| Gateways.Gateway.DoAssertPetition | ams/rams/librams.c:1569-1621 | Sends the assertion to the assertion set and adds it to the SGS |
| Gateways.Gateway.CancelIfIdlePetition | ams/rams/librams.c:1623-1708 | Cancels a petition that is no longer assertable with every node of the SGS, and otherwise does nothing |
| Gateways.Gateway.HandlePetitionAssertion | ams/rams/librams.c:1734-1940 | The whole new state and everything sent are those of the specification; it succeeds if all sends are to declared neighbours |
| Gateways.Gateway.HandlePetitionCancellation | ams/rams/librams.c:1942-2169 | The same for a cancellation, including what a retracting neighbour leaves behind |
| Gateways.Gateway.HandleRpdu | ams/rams/librams.c:1461-1535 | The same for a received petition RPDU: declarations are noted, and RPDUs of undeclared neighbours dropped |
| Gateways.Gateway.DoAddPetitioner | ams/rams/librams.c:2561-2632 | The same for a new local petitioner |
| Gateways.Gateway.DoRemovePetitioner | ams/rams/librams.c:2634-2687 | The same for a local petitioner that leaves |
| Gateways.Gateway.HandleSubscription | ams/rams/librams.c:1208-1230 | The same for a notice of a local subscription |
| Gateways.Gateway.HandleUnsubscription | ams/rams/librams.c:1232-1252 | The same for a notice that a local subscription has ended |
| Gateways.Gateway.TerminateGateway | ams/rams/librams.c:988-1052 | The same for termination |
| Gateways.SubtractNodeSets | ams/rams/ramscommon.c:704-723 | In place, the first list without the members of the second, in order |
| Gateways.AddNodeSets | ams/rams/ramscommon.c:725-744 | In place, the first list with the missing members of the second appended once each |
| Gateways.Gateway.ForwardPublishedMessage | ams/rams/librams.c:2689-2789 | Sends a published message to the union of the DGSs of the petitions it satisfies |
| Gateways.Gateway.HandlePublishedMessage | ams/rams/librams.c:2171-2297 | Relays to the union of the satisfied petitions' DGSs without the sender, and hands the message to the union of their DMSs |
| Gateways.Gateway.RoutePrivateMessage | ams/rams/librams.c:2314-2343 | A private message is for this continuum, goes to the conduit of its own, or nowhere if there is none |
| Operation.HandlePrivateMessage | ams/rams/librams.c:2299-2380 | A private message for this continuum is given to the module addressed exactly if that has invited it; any other goes to the conduit of its continuum |
| Gateways.Gateway.RouteAnnouncedMessage | ams/rams/librams.c:2408-2478 | An announcement to all continua is relayed in a tree to every declared neighbour but the sender and in a mesh to none; one to another continuum goes to its conduit and is not announced here |
| Operation.HandleAnnouncedMessage | ams/rams/librams.c:2382-2557 | The relaying, and the modules here that get the announcement: exactly those that have invited it and are in its domain, once each, and none if it is for another continuum |
| Operation.ForwardTargetedMessage | ams/rams/librams.c:2791-2890 | An announcement of a local module for all continua goes to all declared neighbours, a message or announcement for one to its conduit if there is one; an envelope that is neither is dropped |
| Operation.TargetedExactly | ams/rams/librams.c:2807-2862 | Announcements go to one continuum or to all, private messages to one, and nothing else goes anywhere |
| Invitations.RightKept | ams/rams/librams.c:1305-1419 | While the invitation set lists exactly the invitations not ended, a notice keeps it so if and only if it is neither an invitation for one continuum that meets an entry for all continua nor the end of an invitation that a second entry has too |
| Invitations.RightThroughout | ams/rams/librams.c:1305-1419 | Throughout every run without such notices the set lists exactly the invitations not ended |
| Invitations.RightForAllContinua | ams/rams/librams.c:1305-1419 | In particular in every run of notices for all continua |
| Invitations.WantedExactly | ams/rams/librams.c:1305-1419 | The invitations not ended after a run are exactly those of modules other than the gateway's own, to ordinary subjects, whose last notice is an invitation |
| Invitations.InvitedExactly | ams/rams/ramscommon.c:900-939 | After any run of notices for all continua, a private message is given to the module addressed exactly if its last notice about some domain that welcomes the message is an invitation |
| Invitations.WelcomesItsSource | ams/rams/ramscommon.c:478-548 | An invitation from just the message's subject, continuum, unit and role welcomes it |
| Invitations.WelcomesMoreWidely | ams/rams/ramscommon.c:478-548 | It still does if it is for all subjects, continua, units or roles, or for a unit that the source is within |
| Invitations.WelcomesNoOther | ams/rams/ramscommon.c:478-548 | No invitation from one subject, continuum, role or unit welcomes a message of another |
| Invitations.AddressedWidely | ams/rams/ramscommon.c:941-980 | An announcement to the module's unit, a unit around it or all units, and to its role or all roles, is for the module |
| Invitations.AddressedNoOther | ams/rams/ramscommon.c:941-980 | An announcement to another unit that is not around the module's, or to another role, is not |
| Invitations.InvitedForGood | ams/rams/librams.c:1339-1361 | A module that invites from one continuum after another module has invited from all is entered for all continua, and stays entered when it ends its invitation |
| Invitations.InvitedTwice | ams/rams/librams.c:1339-1361 | A module that invites twice from one continuum stays invited when it ends that invitation |
| Invitations.TidyKept | ams/rams/librams.c:1305-1419 | No notice makes a module occur twice in an entry, an entry empty, or a second entry for a domain of all continua |
| Invitations.GetsWhatIsWanted | ams/rams/ramscommon.c:478-548 | While the set is right, a module is given a message exactly if it has an invitation not ended whose domain welcomes the message |
| Invitations.InvitationSet.HandleInvitation | ams/rams/librams.c:1305-1370 | The new set is that of the specification: the search is for the domain in all continua, the entry made is for the domain given |
| Invitations.InvitationSet.HandleDisinvitation | ams/rams/librams.c:1367-1419 | The module leaves the first entry of the domain, and an entry left empty goes |
| Invitations.InvitationSet.MessageIsInvited | ams/rams/ramscommon.c:900-939 | Yes exactly if some entry that lists the module has a domain that welcomes the message |
| Invitations.Audience | ams/rams/librams.c:2484-2525 | The recipients compiled are exactly the invited modules in the announcement's domain, without duplicates |
| Relay.RecipientsOnce | ams/rams/librams.c:2203-2268 | A gateway sends a published message to each recipient once, even if a DGS holds duplicates |
| Matching.OwnDomain | ams/rams/ramscommon.c:569-611 | A message satisfies the petition about just its own subject, continuum, unit and role |
| Matching.Wider | ams/rams/ramscommon.c:569-611 | It still does if the petition is for all continua, units or roles, or for a unit that the source is within |
| Matching.Refused | ams/rams/ramscommon.c:569-611 | No petition about one subject, continuum, role or unit is satisfied by a message of another |
| Matching.DeclarationForAll | ams/rams/ramscommon.c:565-611 | A gateway's declaration is satisfied by exactly the messages on its continuum's pseudo-subject |
| Matching.OriginTests | ams/rams/ramscommon.c:569-611 | At the origin a message satisfies a petition's envelope exactly if it satisfies the four fields that the envelope shows, for either signedness of a plain char |
| Matching.RelayTests | ams/rams/ramscommon.c:406-476 | At a relay the octets of a published RPDU satisfy a petition's envelope exactly if the message does, with role 255 where the origin did not know the role |
| Flood.RelayTerminates | ams/rams/librams.c:2203-2268 | On any tree and for any relaying to neighbours other than the sender, whatever it depends on: each gateway handles a message at most once, and fewer handlings happen than there are gateways |
| Flood.FollowingIsOnwards | ams/rams/librams.c:2203-2268 | If every gateway relays to neighbours other than the one the message came from, every handling of a run does, the actual sender being the next hop towards the origin |
| Flood.FloodReaches | ams/rams/librams.c:2408-2438 | If every gateway on the way relays onwards, every completed run has brought the message to the node exactly once |
| Flood.FloodEnds | ams/rams/librams.c:2408-2438 | Every run can be carried on until it is completed |
| Delivery.PublishedOnwards | ams/rams/librams.c:2203-2268 | In a quiescent network relaying by the DGSs is such relaying |
| Delivery.AtRest | ams/rams/librams.c:1569-1708 | In a quiescent network, B is in A's SGS exactly if A is in B's DGS, and all neighbours are declared |
| Delivery.ConduitsComplete | ams/rams/ramscommon.c:746-773 | In a quiescent, fully declared tree each gateway's conduit to each other continuum is the next hop |
| Delivery.PublishedTerminates | ams/rams/librams.c:2203-2268 | For a published message handled by each gateway in any state at all, possibly a different one each time, whose DGSs hold neighbours: every gateway handles it at most once, and fewer handlings happen than there are gateways |
| Delivery.PublishedTerminatesInFlux | ams/rams/librams.c:2203-2268 | So it is when petitions change while the message travels: each handling may happen in another reachable state of the network |
| Delivery.PublishedReaches | ams/rams/librams.c:2171-2297 | In a quiescent tree a message published anywhere is handled exactly once by each gateway with a local petition it satisfies, and handed to its subscribers, except that the origin's own gateway hands nothing over |
| Delivery.PublishedEnds | ams/rams/librams.c:2171-2297 | Relaying of a published message can always be carried on until it is over |
| Delivery.OriginSubscribed | ams/rams/librams.c:2689-2789 | The gateway of the origin is subscribed to any message that a neighbour wants, so it receives it in the first place |
| Delivery.PrivateCloser | ams/rams/librams.c:2314-2343 | In every reachable state a private message's next hop is a neighbour one step closer to the destination |
| Delivery.PrivateCannotLoop | ams/rams/librams.c:2863-2887 | Along any route, while petitions change between hops, the distance falls by one each hop, and no gateway is met twice |
| Delivery.PrivateArrives | ams/rams/librams.c:2314-2343 | In a quiescent, fully declared tree a private message arrives in exactly as many hops as the distance |
| Delivery.AnnouncementReachesAll | ams/rams/librams.c:2408-2438 | In a quiescent tree an announcement to all continua is handled exactly once by every gateway |
| Delivery.AnnouncementEnds | ams/rams/librams.c:2408-2438 | Relaying of an announcement can always be carried on until it is over |
| Delivery.AnnouncementArrives | ams/rams/librams.c:2440-2478 | In a quiescent tree an announcement to one other continuum goes along the only route and is announced there, after as many hops as the distance, and nowhere before |
| Mesh.MeshStepKeeps | ams/rams/librams.c:1734-2169 | In a complete mesh whose gateways start by declaring themselves to all others, every event, terminations included, keeps that each gateway that has not terminated is declared at each other or its declaration is on the way, and that no declaration is passed on |
| Mesh.MeshDeclared | ams/rams/librams.c:1734-1940 | In a mesh at rest every gateway that has not terminated has declared itself to every other |
| Mesh.MeshAnnouncement | ams/rams/librams.c:2408-2438 | In a mesh at rest, every completed run of an announcement to all continua has each gateway that has not terminated handle it exactly once, no gateway handle it twice, and no gateway relay it |
| Mesh.MeshAnnouncementEnds | ams/rams/librams.c:2814-2845 | Every such run can be completed |
| MeshSettling.MeshDeliveryLightens | ams/rams/librams.c:1734-2169 | Each delivery in a mesh lowers the number of RPDUs on their way plus what there is room for at the gateways: twice the gateways not asked yet for each petition that interests somebody locally, twice those asked for each other petition |
| MeshSettling.MeshDeliveriesAreBounded | ams/rams/librams.c:1461-1535 | From every reachable state of a mesh, runs of deliveries alone are bounded |
| MeshSettling.MeshSettles | ams/rams/librams.c:1461-1535 | From every reachable state of a mesh deliveries alone lead to rest |
| MeshSettling.MeshRestExists | ams/rams/librams.c:826-862 | Every set of gateways can be a mesh at rest, reached from its start |
| Units.InsertParent | ams/library/amscommon.c:1654-1736 | Inserting a unit changes the longest proper-prefix parent of exactly its parent's children whose names it is a prefix of |
| Units.RemoveParent | ams/library/amscommon.c:192-260 | Removing a unit makes its parent the parent of its children and changes no other |
| Units.Venture.constructor | ams/library/amscommon.c:1836-1846 | The root alone mirrors the prefix order |
| Units.Venture.Search | ams/library/amscommon.c:1684-1722 | The longest prefix of a name among the unit names, and the units whose names extend it |
| Units.Venture.Adopt | ams/library/amscommon.c:1624-1647 | The loop of initializeUnit moves exactly the candidates whose superunit is the new unit's |
| Units.Venture.InitializeUnit | ams/library/amscommon.c:1577-1652 | All pointers changed and unchanged by the insertion |
| Units.Venture.CreateUnit | ams/library/amscommon.c:1654-1736 | Fails exactly for a bad or used number, a bad length or a name in use; otherwise adds the unit, and the pointers again mirror the names: superunit is the longest proper prefix, subunit lists the inverse, without repeats |
| Units.Venture.EraseUnit | ams/library/amscommon.c:192-260 | Removes the unit, and the pointers again mirror the names |
| Units.InsertedLinked | ams/library/amscommon.c:1577-1652 | The pointer changes of an insertion preserve the mirroring of names |
| Units.ErasedLinked | ams/library/amscommon.c:229-260 | The pointer changes of an erasure preserve the mirroring of names |
| Units.ClimbingIsWithin | ams/library/libams.c:451-467 | Following superunit pointers leads from one unit to another exactly if the other's name is a prefix of its own |
| Units.AncestryKept | ams/library/amscommon.c:1577-1652 | After an insertion the pointers lead from each older unit to exactly the older units to which they led before |
| Units.AncestrySpared | ams/library/amscommon.c:192-260 | After an erasure the pointers lead from each remaining unit to exactly the remaining units to which they led before |
| Units.Venture.SubunitOf | ams/library/libams.c:451-467 | Climbing the pointers terminates, and finds b from a exactly if b's name is a prefix of a's |
| RuleTables.StopFinds | ams/library/libams.c:4620-4696 | The early-break search finds a key exactly if it is anywhere in the list, and where it fails is where inserting the key keeps the order |
| RuleTables.DeletedOrdered | ams/library/libams.c:4850-4868 | Deleting a rule keeps the order, and the key is then gone |
| RuleTables.OrderedInLargerVenture | ams/library/libams.c:451-467 | A new unit leaves the order of a list intact if and only if no two rules, one of them about the new unit and made while it was unknown, now stand in the wrong order |
| RuleTables.OrderedAboutKnown | ams/library/libams.c:451-467 | It does if all rules are about units that exist |
| RuleTables.OrderLost | ams/library/libams.c:1750-1830 | A list with a rule about the root before one about a unit yet unknown is in order, and out of order once that unit is created |
| RuleTables.OrderedInSmallerVenture | ams/library/libams.c:451-467 | Erasing units leaves the order of every list intact |
| RuleTables.SpecificFirst | ams/library/libams.c:469-516 | Of two rules that apply to one sender, the list has the more specific first |
| RuleTables.Preferences | ams/library/libams.c:469-516 | Of two rules that apply, one for the sender's role is preferred to one for all roles, then one for its continuum to one for all, then the one with the longer unit name |
| RuleTables.AppliesToItsSender | ams/library/libams.c:469-516 | A rule about just the sender's subject, role, continuum and unit applies |
| RuleTables.AppliesMoreWidely | ams/library/libams.c:469-516 | It still does if it is for all roles, all continua, or a unit that the sender's is within |
| RuleTables.AppliesToNoOther | ams/library/libams.c:469-516 | No rule about one subject, role, continuum or unit applies to another |
| RuleTables.BestIsUnique | ams/library/libams.c:469-516 | The most specific rule depends on the set of rules only, not on the order of insertion |
| RuleTables.Sap.FindMsgRule | ams/library/libams.c:4620-4696 | Found exactly if the key is in the list; else the place found is where it belongs |
| RuleTables.Sap.AddMsgRule | ams/library/libams.c:4698-4748 | Adds the rule unless its key is there, and keeps both lists ordered with unique keys |
| RuleTables.Sap.RemoveMsgRule | ams/library/libams.c:4850-4868 | Removes the rule exactly if it is there, and keeps the order |
| RuleTables.Sap.GetMsgRule | ams/library/libams.c:469-516 | The most specific applicable rule by role, then continuum, then depth of unit; none exactly if no rule applies |
| Transmission.FindXmitRule | ams/library/libams.c:1435-1498 | The same completeness and place for transmission rules |
| Transmission.NoteRuleEffect | ams/library/libams.c:1634-1681 | Marking, replacing in place or inserting a rule keeps the order; the rule's key then has the noted rule and every other key what it had |
| Transmission.RemoveRuleEffect | ams/library/libams.c:2053-2080 | Removing a rule keeps the order and every other key |
| Transmission.QualifySender | ams/library/libams.c:4392-4415 | A sender qualifies exactly if the rule applies to its role, continuum and unit |
| Transmission.UsableExactly | ams/library/libams.c:4417-4439 | A sender may use a rule exactly if the receiver is authorized and the rule, with the list's subject put in, applies to the sender |
| Transmission.GetXmitRule | ams/library/libams.c:4417-4439 | The most specific applicable rule among those whose receiver is authorized; none exactly if there is none |
| Resync.PointFound | ams/library/libams.c:1792-1816 | The early-break search of the endpoints finds the one for a vector exactly if there is one |
| Resync.UnderstoodExactly | ams/library/libams.c:1750-1830 | An assertion comes to a rule exactly if its subject is known, or 0 and for subscriptions the continuum is the local one, and the module receives at its vector; the rule then has the assertion's role, unit, priority and flow label, its continuum or for subject 0 the local one, and that point, and is marked as authorized exactly if the module is |
| Resync.HeedAllEffect | ams/library/libams.c:1953-2012 | After a declaration each key has the rule of the last assertion understood about it, or else the rule it had |
| Resync.SweepEffect | ams/library/libams.c:1886-1951 | Cancelling what is unconfirmed keeps exactly the confirmed rules, unmarked, in order |
| Resync.ResyncIsExact | ams/library/libams.c:2762-2768 | For every subject, list and key: after declaring with confirmation and cancelling the unconfirmed, there is a rule exactly if it is declared, it is the last one declared, and no mark remains |
| Resync.ResyncIsAsDeclared | ams/library/libams.c:2762-2768 | In terms of the declaration: for every subject, list and key there is a rule exactly if some assertion is about it, and the rule has the role, unit, continuum, priority, flow label and point of the last such assertion |
| Resync.CancelEffect | ams/library/libams.c:2014-2084 | A cancellation removes exactly the rule it names; never an invitation for all subjects |
| Resync.CancellableExactly | ams/library/libams.c:2014-2084 | The cancellations acted on are exactly those of assertions that would be acceptable, except of invitations for all subjects |
| Resync.AssertedThenCancelled | ams/library/libams.c:2014-2084 | An assertion followed by its cancellation leaves no rule of that key, except that an invitation for all subjects stays |
| Interests.IndexesAgree | ams/library/libams.c:1353-1433 | A module has an interest in a subject exactly if the subject has a fan that is the module, and they refer to each other |
| Interests.LinkAgree | ams/library/libams.c:1574-1626 | Entering an interest in both indexes keeps them in agreement and strictly sorted |
| Interests.UnlinkAgree | ams/library/amscommon.c:1546-1554 | Removing an interest from both indexes keeps them in agreement and strictly sorted |
| Interests.SameRecords | ams/library/libams.c:1555-1727 | A module about which nothing has changed keeps its rules: with the frames of the methods below, no operation on one module touches the rules of another |
| Interests.SelectsOne | ams/library/libams.c:5235-5280 | The two ways of looking an interest up, recourse to all subjects included, have one answer |
| Interests.SelectedExactly | ams/library/libams.c:5235-5280 | Some interest is found exactly if the module has one in the subject, or the subject is an ordinary one and it has one in all subjects; one in the subject is preferred |
| Interests.Mib.constructor | ams/library/amscommon.c:1246-1266 | Empty indexes agree |
| Interests.Mib.FindSubjOfInterest | ams/library/libams.c:1353-1387 | Finds the subject number or the gap where it belongs |
| Interests.Mib.FindFanModule | ams/library/libams.c:1389-1433 | Finds the unit and module number or the gap where they belong |
| Interests.Mib.InterestIn | ams/library/libams.c:1574-1626 | The module's interest, found or entered in both indexes; the out-of-sync branch is unreachable |
| Interests.Mib.NoteInList | ams/library/libams.c:1634-1681 | Marks, replaces in place or inserts the rule, as the specification has it |
| Interests.Mib.NoteAssertion | ams/library/libams.c:1555-1727 | Records the rule in the module's book and nothing else, marked as authorized exactly if the subject has no list of receivers or the list has the module's role, and keeps both indexes |
| Roles.StoppedEarly | ams/library/libams.c:1707-1723 | In a list in the order of strcmp the search that stops at the first role not below the one sought finds it exactly if it is listed |
| Roles.MayReceive | ams/library/libams.c:1699-1724 | Authorized exactly if there is no list of receivers or the role is on it |
| Roles.AddAuthorization | ams/library/amscommon.c:1363-1423 | Adds a role of the venture in its place and no other, so the list stays in order without repeats; fails exactly for an unknown role |
| Interests.Mib.ProcessAssertion | ams/library/libams.c:1750-1830 | Skips, coerces or records an assertion as the specification has it |
| Interests.Mib.ProcessDeclaration | ams/library/libams.c:1953-2012 | Records all assertions of a declaration, in order, and changes no other module's rules |
| Interests.Mib.CancelUnconfirmedAssertions | ams/library/libams.c:1886-1951 | Sweeps every list of the module and nothing else |
| Interests.Mib.Resynchronize | ams/library/libams.c:2762-2768 | The call pair leaves, in the linked records, exactly the declared rules, unmarked |
| Interests.Mib.ProcessCancellation | ams/library/libams.c:2014-2084 | Removes the rule named, in the cases in which the code does |
| Interests.Mib.ForgetModule | ams/library/amscommon.c:2141-2160 | The module has no rules and is in no subject's index; no other module's rules change |
| Interests.Mib.SelectInterest | ams/library/libams.c:5235-5280 | Through either index, the module's interest in the subject, or in all subjects |
| Events.BehindIsUnique | ams/library/libams.c:88-122 | There is one place behind the events at least as urgent |
| Events.OrdinaryInsert | ams/library/libams.c:88-122 | Inserting there keeps events sorted by priority, puts the event at the end of its own line and leaves every other line alone |
| Events.UrgentInsert | ams/library/libams.c:145-158 | An event of priority 0 goes to the head of its line |
| Events.ExpressInsert | ams/library/libams.c:168-184 | The awaited reply at the front changes no line |
| Events.EventQueue.PlaceFor | ams/library/libams.c:88-122 | The search of the index of last events finds that place |
| Events.EventQueue.EnqueueAmsEvent | ams/library/libams.c:124-199 | The index stays that of the last event of each priority; lines change as stated: FIFO within priorities 1 to 15, LIFO within 0; the query ends exactly with its reply |
| Events.EventQueue.DequeueAmsEvent | ams/library/libams.c:249-261 | Removes the first event, and the index is that of the rest |
| Events.IndexTail | ams/library/libams.c:249-261 | Clearing the dequeued event from the index makes it the index of the rest |
| Events.FrontIsUrgent | ams/library/libams.c:88-122 | The first event, unless it is an awaited reply, is the first in its line, and no line is more urgent |
| Envelopes.ConstructEnvelope | ams/rams/ramscommon.c:45-70 | Writes the header and enclosure and nothing behind them |
| Envelopes.EnvelopeRoundTrip | ams/rams/ramscommon.c:110-157 | Each field read from an envelope is what was put in, exactly unless a plain char is signed, the field is continuum or unit, and its low octet is 128 or more |
| Envelopes.SamePetitionIsSameDomain | ams/rams/ramscommon.c:361-385 | Two petition envelopes are the same petition exactly if their four fields are, whatever the signedness of a plain char |
| Envelopes.MatchesShownDomain | ams/rams/ramscommon.c:387-404 | A petition matches a domain exactly if that is the one its envelope shows: with a signed plain char a continuum or unit with a low octet of 128 or more is shown as 256 less |
| Envelopes.TakenForAnother | ams/rams/ramscommon.c:387-404 | With a signed plain char a petition about continuum 640 matches continuum 384, and not 640 |
| Envelopes.MatchesItsDomain | ams/rams/ramscommon.c:387-404 | A petition matches the domain it is about and no other if and only if a plain char is unsigned or both low octets are below 128 |
| Envelopes.ConstructEnclosure | ams/rams/ramscommon.c:238-285 | The text is message header and content |
| Envelopes.EnclosureRoundTrip | ams/rams/ramscommon.c:72-108 | Each field read from an enclosure is what was put in |
| Envelopes.OriginAndRelayAgree | ams/rams/ramscommon.c:406-476 | Origin and relay agree whether a message satisfies a petition, exactly unless the sender's role is unknown, the petition is about role 255, and the rest satisfies it |
| Codec.AssertionRoundTrip | ams/library/libams.c:1832-1884 | Parsing nine octets recovers the assertion |
| Codec.DeclarationRoundTrip | ams/library/libams.c:1953-2012 | Parsing a declaration recovers it and stops at its end |
| Codec.SkipAgrees | ams/library/amsd.c:1143-1196 | On any text at all, skipping a declaration succeeds exactly if parsing does, and stops at the same place |
| Codec.ContactBytes | ams/library/libams.c:1170-1202 | A contact summary has exactly the computed length |
| Codec.ContactRoundTrip | ams/library/libams.c:2203-2305 | Parsing a contact summary recovers names, vectors and interfaces; skipping it stops at the same place |
| Codec.PointsRight | ams/library/libams.c:2133-2201 | After parsing any list of vectors the endpoints are sorted and there is one for a vector number exactly if a vector of that number has an interface usable here: the first usable one of the last such vector |
| Codec.BestFitIsFirst | ams/library/libams.c:2133-2201 | The interface taken is usable here and none before it is; none is taken exactly if none is usable |
| Codec.ReconnectRoundTrip | ams/library/amsd.c:1500-1555 | A reconnect supplement that a module builds is never taken for malformed, and the registrar reads the module's number, endpoint and census from it |
| Cursors.LoadAssertion | ams/library/libams.c:1111-1131 | Writes nine octets at the cursor and nothing else |
| Cursors.LoadDeclaration | ams/library/libams.c:1133-1168 | Writes the declaration at the cursor and nothing else |
| Cursors.LoadContactSummary | ams/library/libams.c:1204-1255 | Writes the contact summary at the cursor, exactly the computed length and nothing else |
| Cursors.Scan | ams/library/amscommon.c:2067-2089 | The text up to the first terminator, or none |
| Cursors.ParseAmsEndpoint | ams/library/libams.c:2086-2131 | Parses one interface as the specification has it |
| Cursors.ParseDeliveryVectorList | ams/library/libams.c:2279-2305 | Parses a list of vectors, with the count read as a plain char |
| Cursors.ReadDeclaration | ams/library/libams.c:1953-2012 | Parses a declaration as the specification has it |
| Cursors.InsertAmsEndpoint | ams/library/libams.c:2168-2200 | Inserts an endpoint in order, replacing one for the same vector |
| Cursors.SkipDeliveryVectorList | ams/library/amsd.c:1118-1141 | Skips a list of vectors as the specification has it |
| Cursors.SkipWholeDeclaration | ams/library/amsd.c:1143-1196 | Skips a declaration as the specification has it |
| Cursors.CheckReconnect | ams/library/amsd.c:1500-1555 | Accepts a supplement exactly if the specification reads it |
| Registrars.LoadCount | ams/library/amsd.c:1603-1621 | After loading a list into cleared flags, the number of flags is the length of the list exactly if the list has no duplicates and no number that a plain char makes non-positive |
| Registrars.CountKept | ams/library/amsd.c:1494-1641 | Every step keeps the count equal to the number of flags, exactly if the list it takes over, if any, can be counted by its length |
| Registrars.CountedThroughout | ams/library/amsd.c:1603-1629 | The count is right throughout every run that takes over such lists only |
| Registrars.ReconnectionsComeFirst | ams/library/amsd.c:1373-1421 | In every run each accepted reconnection precedes each accepted registration |
| Registrars.Readmitted | ams/library/amsd.c:1494-1641 | While the census lasts, a module's reconnect message is accepted if its number is free and the first module to reconnect knew of it |
| Registrars.ReconnectionAnswered | ams/library/amsd.c:1494-1641 | A module's reconnect message is accepted if and only if the census lasts, its number is free, and it is one of those expected if the census has begun; else it is told to die and nothing changes |
| Registrars.RegistrationAnswered | ams/library/amsd.c:1349-1458 | A well-formed registration is refused for the census exactly up to 3 counted cycles, refused for want of room exactly if all numbers are used, and else gets the least unused number |
| Registrars.MalformedAnswered | ams/library/amsd.c:1349-1372 | A malformed registration is ignored, and so is a malformed reconnection, unless the census is over, when its sender is told to die |
| Registrars.CensusLasts | ams/library/amsd.c:1373-1384 | From the start of a registrar, registrations are refused for the census exactly until more than 3 cycles have gone by from the first one in which the configuration server is known |
| Registrars.CountableExactly | ams/library/amsd.c:1603-1621 | An octet of the list of modules is counted exactly if it is not 0 and no plain char makes it negative |
| Registrars.UnusedIsLeast | ams/library/amsd.c:1385-1401 | The number handed out is the least unused one |
| Registrars.FirstCycle | ams/library/amsd.c:904-960 | A module survives its first cycle exactly if the count of missed heartbeats it has taken over with its number is not 3 |
| Registrars.SilentStays | ams/library/amsd.c:904-960 | A module that is not heard of stays, with a count one higher each cycle, as long as no cycle has found the count at 3 |
| Registrars.ImputedExactly | ams/library/amsd.c:904-960 | In every run, termination is imputed to a module that is not heard of if and only if the count it has taken over is at most 3 and there are cycles enough to go beyond it; with a higher count it never is |
| Registrars.HeardAsNew | ams/library/amsd.c:1246-1258 | After a heartbeat of a registered module, every run goes on as if it had missed none |
| Registrars.ImputedIfUnheard | ams/library/amsd.c:904-960 | In every run, a module that does not stop is terminated by imputation if and only if more than 3 cycles go by between two of its heartbeats or after the last one, or before the first one enough to take the count it began with from at most 3 beyond 3 |
| Registrars.HeardInTime | ams/library/amsd.c:904-960 | A module that is heard of in time stays registered in its role |
| Registrars.InheritedCount | ams/library/amsd.c:1349-1458 | Registration and reconnection leave the count of missed heartbeats of the number as it was |
| Registrars.InnocentTerminated | ams/library/amsd.c:904-960 | A concrete run: a module misses three heartbeats and stops, the next one takes over its number and is terminated in its first cycle |
| Registrars.Registrar.ProcessHeartbeatCycle | ams/library/amsd.c:904-960 | Counts the cycle, terminates the modules whose count of missed heartbeats is exactly 3, whoever has missed them, and counts one more for every module |
| Registrars.Registrar.HandleHeartbeat | ams/library/amsd.c:1246-1258 | Clears the missed heartbeats of a registered module and changes nothing else |
| Registrars.Registrar.HandleStopping | ams/library/amsd.c:1460-1492 | Frees the number of a module of this cell that stops, and changes nothing else; nothing here changes for a module of another cell |
| Registrars.Registrar.HandleRegistration | ams/library/amsd.c:1349-1458 | Outcome and whole new state are those of the specification |
| Registrars.Registrar.HandleReconnect | ams/library/amsd.c:1494-1641 | Outcome and whole new state are those of the specification |
| Registrars.Registrar.LoadUndeclared | ams/library/amsd.c:1610-1620 | Sets the flags of the modules listed |
| Framing.ComputeAmsChecksum | ams/library/amscommon.c:733-755 | The sum of the 16-bit words modulo 2^16, although the 32-bit accumulator wraps |
| Framing.DamageShows | ams/library/amscommon.c:733-755 | Changing one octet changes the checksum |
| Framing.SendMamsMsg | ams/library/amscommon.c:2164-2301 | The octets sent are those of the specification |
| Framing.EnqueueMamsMsg | ams/library/amscommon.c:2376-2569 | The outcome of receiving any text is that of the specification |
| Framing.FramingRoundTrip | ams/library/amscommon.c:2376-2569 | A message that is sent passes the length and checksum tests, for odd and even lengths, and is delivered with the same type, origin, memo and supplement exactly if the sender signs or the receiver does not verify |
| Framing.DeliveredIfSigned | ams/library/amscommon.c:2508-2540 | A receiver that verifies delivers a text that carries a message if and only if its authenticator is some nonce, twice, followed by the name registered for the origin |
| Framing.DeliveredExactly | ams/library/amscommon.c:2376-2569 | A message is delivered if and only if the text is, octet for octet, a frame of it - any version, any time tag of the known code, with a right checksum or none - from a known origin and, if the receiver verifies, signed |
| Framing.FrameAnswered | ams/library/amscommon.c:2376-2569 | A well-formed frame is not delivered if its origin is unknown, refused if it should be signed and is not, and else delivered |
| Framing.MalformedExactly | ams/library/amscommon.c:2376-2569 | Any other text is refused as malformed |
| Framing.SentExactly | ams/library/amscommon.c:2164-2301 | A message goes out exactly from a known origin that, if it signs, has a name of 1 to 96 octets |
| Framing.DamagedIsNotDelivered | ams/library/amscommon.c:2376-2569 | A message with any one octet changed is not delivered |
| Samples.NetworkOrder | ams/rams/ramscommon.c:45-70 | Numbers go most significant octet first, negative ones in two's complement |
| Samples.PetitionSample | ams/rams/ramscommon.c:45-70 | The twelve octets of a petition assertion of known contents |
| Samples.EnvelopeSample | ams/rams/ramscommon.c:45-70 | The twelve octets of an envelope header with all fields different |
| Samples.EnvelopeMasks | ams/rams/ramscommon.c:110-157 | Four bits of the control code and fifteen of the continuum are written and read, whatever stands beside them |
| Samples.PublishedSample | ams/rams/librams.c:2689-2789 | The envelope of a published RPDU |
| Samples.EnclosureSample | ams/rams/ramscommon.c:238-285 | The sixteen octets of an enclosure's header with all fields different, and what is read from such octets |
| Samples.AssertionSample | ams/library/libams.c:1111-1131 | The nine octets of an assertion with all fields different, and what they are read as |
| Samples.DeclarationSample | ams/library/libams.c:1133-1168 | The octets of a declaration: subscriptions, then invitations, each behind its count |
| Samples.ContactSample | ams/library/libams.c:1204-1255 | The octets of a contact summary with one vector of two interfaces |
| Samples.SupplementSample | ams/library/amsd.c:1500-1555 | The octets of a reconnect supplement |
| Samples.ChecksumSample | ams/library/amscommon.c:733-755 | The checksum of five octets whose words overflow |
| Samples.MessageSample | ams/library/amscommon.c:2164-2301 | The octets of a MAMS message in front of its checksum |
| Samples.SignedSample | ams/library/amscommon.c:2164-2301 | The octets of an authenticator, and two that are not one |

## Left out

- Restart, petition-log playback and the resending of UDP RPDUs: they depend on files and clocks, and bring back duplicates in the DGS; with them the state from playback.
- Relaying of published messages in a mesh: the code relays whatever the network type, so only the tree is claimed.
- Exactness of interest: on a tree stale interest is kept alive by `PetitionIsAssertable`, so it is proved that interest is never lost, not that it is minimal.
- Guarantees.SubscribedForNeighbours: one direction only; the other fails after a retraction, as `Subscriptions.ExactKept` says.
- Operation.HandlePrivateMessage: the sending of the message by `ams_send`, and of announcements likewise, is taken to succeed.
- Assertion RPDUs that meet a petition set changed by a failed send: send failures stop the gateway.
- Delivery by `sendToSubscribers`, with `receivedMsgAlready`: it compares module numbers without units, so it gives no guarantee for all-subjects subscribers.
- Interests.Mib.ProcessAssertion: the notices to the application.
- Roles.AddAuthorization: the removal of an authorization, and the check of a sender's role, which searches its list alike.
- Transmission.FindXmitRule: takes the prefix relation of unit names for `subunitOf`, which `Units.Venture.SubunitOf` is proved to compute; the back pointers from a rule to its FanModule are not modelled.
- Interests: parsing of the module status message around the call pair, where the check of the module number admits almost nothing.
- Cursors.ParseAmsEndpoint: the overwriting of `=` and `,` by NUL in the buffer parsed; names are returned as copies.
- Units: the cell and modules inside a unit, and erasure of the root with the whole venture.
- Events: the waiting and signalling around the queue; a query is the number waited for.
- Registrars.Registrar.ProcessHeartbeatCycle: the messages to the modules and to other registrars, and the count towards the next resynchronization of the cell.
- Registrars.Registrar.HandleStopping: the passing on of the notice to the cell's modules and to other registrars.
- Registrars.Registrar.HandleReconnect: parsing of the endpoint name by the transport service, and the acknowledgements sent, which are taken to succeed.
- Framing.FramingRoundTrip: the value of the time tag, whose decoding does not invert its encoding.
- Time-outs, threads, memory allocation, transport adapters, marshalling, configuration server and MIB loading.
