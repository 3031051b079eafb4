/** What the local modules have invited the gateway to send them: the
    invitation set, and which module gets which private or announced message. */
module Invitations {
  import opened Lists
  import opened Petitions
  import opened Relay

  /** Continuum, unit and role 0 stand for all. */
  datatype Domain = Domain(cont: nat, unit: nat, role: nat, subject: int)

  datatype Listing = Listing(domain: Domain, modules: seq<ModuleId>)

  datatype Notice = Invited(m: ModuleId, d: Domain) | Disinvited(m: ModuleId, d: Domain)

  /** The domain that HandleInvitation searches for, whatever the continuum. */
  function Everywhere(d: Domain): Domain { d.(cont := 0) }

  function EntryOf(s: seq<Listing>, d: Domain): (i: nat)
    ensures i <= |s| && (i < |s| ==> s[i].domain == d) && forall j :: 0 <= j < i ==> s[j].domain != d
  {
    if s == [] || s[0].domain == d then 0 else 1 + EntryOf(s[1..], d)
  }

  function Invite(s: seq<Listing>, m: ModuleId, d: Domain): seq<Listing> {
    var i := EntryOf(s, Everywhere(d));
    if i == |s| then s + [Listing(d, [m])]
    else if m in s[i].modules then s
    else s[i := s[i].(modules := s[i].modules + [m])]
  }

  function Disinvite(s: seq<Listing>, m: ModuleId, d: Domain): seq<Listing> {
    var i := EntryOf(s, d);
    if i == |s| || m !in s[i].modules then s
    else
      var rest := RemoveFirst(s[i].modules, m);
      if rest == [] then DeleteAt(s, i) else s[i := s[i].(modules := rest)]
  }

  /** The gateway ignores itself, and invitations to all or pseudo-subjects. */
  predicate Heeded(self: ModuleId, n: Notice) {
    n.m != self && (n.Invited? ==> n.d.subject > 0)
  }

  function Take(self: ModuleId, s: seq<Listing>, n: Notice): seq<Listing> {
    if !Heeded(self, n) then s
    else match n
      case Invited(m, d) => Invite(s, m, d)
      case Disinvited(m, d) => Disinvite(s, m, d)
  }

  // ---- What the set should say -----------------------------------------------------------------

  /** Whoever has invited last, and not disinvited. */
  function Wanted(self: ModuleId, w: set<(ModuleId, Domain)>, n: Notice): set<(ModuleId, Domain)> {
    if !Heeded(self, n) then w
    else match n
      case Invited(m, d) => w + {(m, d)}
      case Disinvited(m, d) => w - {(m, d)}
  }

  ghost predicate ListedAt(s: seq<Listing>, m: ModuleId, d: Domain, i: nat) {
    i < |s| && s[i].domain == d && m in s[i].modules
  }

  ghost predicate OnList(s: seq<Listing>, m: ModuleId, d: Domain) {
    exists i: nat :: ListedAt(s, m, d, i)
  }

  /** The set says what is wanted. */
  ghost predicate Right(s: seq<Listing>, w: set<(ModuleId, Domain)>) {
    forall m, d :: OnList(s, m, d) <==> (m, d) in w
  }

  /** Only a domain of one continuum can have more than one entry. */
  ghost predicate Tidy(s: seq<Listing>) {
    && (forall l :: l in s ==> l.modules != [] && NoRepeats(l.modules))
    && forall i, j :: 0 <= i < j < |s| && s[i].domain == s[j].domain ==> s[i].domain.cont != 0
  }

  lemma TidyKept(self: ModuleId, s: seq<Listing>, n: Notice)
    requires Tidy(s)
    ensures Tidy(Take(self, s, n))
  {
    var s' := Take(self, s, n);
    if Heeded(self, n) && n.Disinvited? && EntryOf(s, n.d) < |s| {
      var l := s[EntryOf(s, n.d)];
      assert l in s;
      RemoveFirstNoRepeats(l.modules, n.m);
    }
    forall l | l in s' ensures l.modules != [] && NoRepeats(l.modules) {
      if l in s { assert l.modules != [] && NoRepeats(l.modules); }
      else if n.Invited? {
        var i := EntryOf(s, Everywhere(n.d));
        if i < |s| { assert s[i] in s; }
      }
    }
  }

  /** An invitation is entered under its own domain, unless there is an entry
      for all continua: then under that. */
  function Entered(s: seq<Listing>, d: Domain): Domain {
    if EntryOf(s, Everywhere(d)) < |s| then Everywhere(d) else d
  }

  lemma InviteLists(s: seq<Listing>, m: ModuleId, d: Domain, x: ModuleId, e: Domain)
    ensures OnList(Invite(s, m, d), x, e) <==> OnList(s, x, e) || (x == m && e == Entered(s, d))
  {
    var s', i := Invite(s, m, d), EntryOf(s, Everywhere(d));
    if OnList(s, x, e) {
      var j: nat :| ListedAt(s, x, e, j);
      assert ListedAt(s', x, e, j);
    }
    if OnList(s', x, e) {
      var j: nat :| ListedAt(s', x, e, j);
      if j < |s| && x in s[j].modules { assert ListedAt(s, x, e, j); }
    }
    assert ListedAt(s', m, Entered(s, d), i);
  }

  /** A second entry for the domain lists the module. */
  ghost predicate ListedAgain(s: seq<Listing>, m: ModuleId, d: Domain) {
    exists j: nat :: j != EntryOf(s, d) && ListedAt(s, m, d, j)
  }

  lemma DisinviteLists(s: seq<Listing>, m: ModuleId, d: Domain, x: ModuleId, e: Domain)
    requires Tidy(s)
    ensures OnList(Disinvite(s, m, d), x, e) <==> OnList(s, x, e) && ((x, e) == (m, d) ==> ListedAgain(s, m, d))
  {
    var s', i := Disinvite(s, m, d), EntryOf(s, d);
    if i < |s| && m in s[i].modules {
      assert s[i] in s;
      RemoveFirstNoRepeats(s[i].modules, m);
      var gone := RemoveFirst(s[i].modules, m) == [];
      forall j: nat | j != i && ListedAt(s, x, e, j) ensures OnList(s', x, e) {
        assert ListedAt(s', x, e, if gone && j > i then j - 1 else j);
      }
      if ListedAt(s, x, e, i) && x != m { assert ListedAt(s', x, e, i); }
      if OnList(s', x, e) {
        var j: nat :| ListedAt(s', x, e, j);
        assert ListedAt(s, x, e, if gone && j >= i then j + 1 else j);
      }
    } else if OnList(s, m, d) {
      var j: nat :| ListedAt(s, m, d, j);
      assert j != i;
    }
  }

  /** The notices after which the set is wrong: an invitation for one continuum
      that goes with those for all continua, and the end of an invitation that
      has a second entry. */
  ghost predicate Muddles(self: ModuleId, s: seq<Listing>, n: Notice) {
    && Heeded(self, n) && n.d.cont != 0
    && match n
       case Invited(m, d) =>
         EntryOf(s, Everywhere(d)) < |s| && !(OnList(s, m, d) && OnList(s, m, Everywhere(d)))
       case Disinvited(m, d) => ListedAgain(s, m, d)
  }

  /** A notice keeps the set right exactly if it is none of those. */
  lemma RightKept(self: ModuleId, s: seq<Listing>, w: set<(ModuleId, Domain)>, n: Notice)
    requires Tidy(s) && Right(s, w)
    ensures Right(Take(self, s, n), Wanted(self, w, n)) <==> !Muddles(self, s, n)
  {
    if Heeded(self, n) {
      match n
      case Invited(m, d) => InviteRight(self, s, w, m, d);
      case Disinvited(m, d) => DisinviteRight(self, s, w, m, d);
    }
  }

  lemma InviteRight(self: ModuleId, s: seq<Listing>, w: set<(ModuleId, Domain)>, m: ModuleId, d: Domain)
    requires Right(s, w) && Heeded(self, Invited(m, d))
    ensures Right(Invite(s, m, d), w + {(m, d)}) <==> !Muddles(self, s, Invited(m, d))
  {
    var s' := Invite(s, m, d);
    forall x, e ensures OnList(s', x, e) <==> (x, e) in w || (x == m && e == Entered(s, d)) {
      InviteLists(s, m, d, x, e);
    }
    assert OnList(s, m, d) <==> (m, d) in w;
    assert OnList(s, m, Everywhere(d)) <==> (m, Everywhere(d)) in w;
    assert OnList(s', m, d) <==> (m, d) in w || d == Entered(s, d);
    assert OnList(s', m, Entered(s, d));
  }

  lemma DisinviteRight(self: ModuleId, s: seq<Listing>, w: set<(ModuleId, Domain)>, m: ModuleId, d: Domain)
    requires Tidy(s) && Right(s, w) && Heeded(self, Disinvited(m, d))
    ensures Right(Disinvite(s, m, d), w - {(m, d)}) <==> !Muddles(self, s, Disinvited(m, d))
  {
    var s' := Disinvite(s, m, d);
    forall x, e ensures OnList(s', x, e) <==> (x, e) in w && ((x, e) == (m, d) ==> ListedAgain(s, m, d)) {
      DisinviteLists(s, m, d, x, e);
    }
    if ListedAgain(s, m, d) {
      var j: nat :| j != EntryOf(s, d) && ListedAt(s, m, d, j);
      assert OnList(s, m, d) && OnList(s', m, d);
      assert EntryOf(s, d) < j && s[EntryOf(s, d)].domain == s[j].domain;
    }
  }

  // ---- Runs ------------------------------------------------------------------------------------

  function TakeAll(self: ModuleId, s: seq<Listing>, ns: seq<Notice>): seq<Listing>
    decreases |ns|
  {
    if ns == [] then s else TakeAll(self, Take(self, s, ns[0]), ns[1..])
  }

  function AllWanted(self: ModuleId, w: set<(ModuleId, Domain)>, ns: seq<Notice>): set<(ModuleId, Domain)>
    decreases |ns|
  {
    if ns == [] then w else AllWanted(self, Wanted(self, w, ns[0]), ns[1..])
  }

  /** While nothing muddles it the set stays right; in particular if all
      notices are for all continua. */
  lemma {:induction false} RightThroughout(
    self: ModuleId, s: seq<Listing>, w: set<(ModuleId, Domain)>, ns: seq<Notice>)
    requires Tidy(s) && Right(s, w)
    requires forall k | 0 <= k < |ns| :: !Muddles(self, TakeAll(self, s, ns[..k]), ns[k])
    ensures Tidy(TakeAll(self, s, ns)) && Right(TakeAll(self, s, ns), AllWanted(self, w, ns))
    decreases |ns|
  {
    if ns != [] {
      assert ns[..0] == [];
      TidyKept(self, s, ns[0]);
      RightKept(self, s, w, ns[0]);
      forall k | 0 <= k < |ns| - 1
        ensures !Muddles(self, TakeAll(self, Take(self, s, ns[0]), ns[1..][..k]), ns[1..][k]) {
        assert ns[..k+1][0] == ns[0] && ns[..k+1][1..] == ns[1..][..k];
      }
      RightThroughout(self, Take(self, s, ns[0]), Wanted(self, w, ns[0]), ns[1..]);
    }
  }

  lemma RightForAllContinua(self: ModuleId, ns: seq<Notice>)
    requires forall n :: n in ns ==> n.d.cont == 0
    ensures Right(TakeAll(self, [], ns), AllWanted(self, {}, ns))
  {
    RightThroughout(self, [], {}, ns);
  }

  /** m's last notice about d is an invitation. */
  ghost predicate LastInvited(ns: seq<Notice>, m: ModuleId, d: Domain) {
    exists i :: InvitedLastAt(ns, m, d, i)
  }

  ghost predicate InvitedLastAt(ns: seq<Notice>, m: ModuleId, d: Domain, i: int) {
    0 <= i < |ns| && ns[i] == Invited(m, d) && forall j :: i < j < |ns| ==> ns[j] != Disinvited(m, d)
  }

  /** What is wanted after a run: the invitations that modules other than the
      gateway's own have made to ordinary subjects and not ended. */
  lemma {:induction false} WantedExactly(
    self: ModuleId, w: set<(ModuleId, Domain)>, ns: seq<Notice>, m: ModuleId, d: Domain)
    requires (m, d) in w ==> m != self && d.subject > 0
    ensures (m, d) in AllWanted(self, w, ns) <==>
      && m != self && d.subject > 0
      && (LastInvited(ns, m, d) || ((m, d) in w && forall j :: 0 <= j < |ns| ==> ns[j] != Disinvited(m, d)))
    decreases |ns|
  {
    if ns != [] {
      var rest := ns[1..];
      assert forall j :: 0 < j < |ns| ==> ns[j] == rest[j - 1];
      WantedExactly(self, Wanted(self, w, ns[0]), rest, m, d);
      LastInvitedFirst(ns, m, d);
    }
  }

  lemma LastInvitedFirst(ns: seq<Notice>, m: ModuleId, d: Domain)
    requires ns != []
    ensures LastInvited(ns, m, d) <==>
      (LastInvited(ns[1..], m, d)
       || (ns[0] == Invited(m, d) && forall j :: 0 <= j < |ns[1..]| ==> ns[1..][j] != Disinvited(m, d)))
  {
    var rest := ns[1..];
    assert forall j :: 0 < j < |ns| ==> ns[j] == rest[j - 1];
    if i :| InvitedLastAt(rest, m, d, i) {
      assert InvitedLastAt(ns, m, d, i + 1);
    }
    if ns[0] == Invited(m, d) && forall j :: 0 <= j < |rest| ==> rest[j] != Disinvited(m, d) {
      assert InvitedLastAt(ns, m, d, 0);
    }
    if i :| InvitedLastAt(ns, m, d, i) {
      forall j | i - 1 < j < |rest| ensures rest[j] != Disinvited(m, d) { assert rest[j] == ns[j + 1]; }
      if i > 0 { assert InvitedLastAt(rest, m, d, i - 1); }
    }
  }

  /** So in a run of notices for all continua a module gets a private message
      exactly if it has invited such messages and not ended that. */
  lemma InvitedExactly(within: (nat, nat) -> bool, self: ModuleId, ns: seq<Notice>, msg: Message, m: ModuleId)
    requires forall n :: n in ns ==> n.d.cont == 0
    ensures IsInvited(within, TakeAll(self, [], ns), Some(msg), m) <==>
      exists d :: LastInvited(ns, m, d) && m != self && d.subject > 0 && Welcomes(within, d, msg)
  {
    RightForAllContinua(self, ns);
    GetsWhatIsWanted(within, TakeAll(self, [], ns), AllWanted(self, {}, ns), msg, m);
    forall d ensures (m, d) in AllWanted(self, {}, ns) <==> m != self && d.subject > 0 && LastInvited(ns, m, d) {
      WantedExactly(self, {}, ns, m, d);
    }
  }

  /** A module that invites messages from one continuum after another has
      invited them from all gets them from all, and cannot end that. */
  lemma InvitedForGood(self: ModuleId, a: ModuleId, b: ModuleId, d: Domain)
    requires a != b && self != a && self != b && d.subject > 0 && d.cont != 0
    ensures var ns := [Invited(a, Everywhere(d)), Invited(b, d), Disinvited(b, d)];
      && (forall e :: (b, e) !in AllWanted(self, {}, ns))
      && OnList(TakeAll(self, [], ns), b, Everywhere(d))
  {
    var ns := [Invited(a, Everywhere(d)), Invited(b, d), Disinvited(b, d)];
    var s1 := [Listing(Everywhere(d), [a])];
    var s2 := [Listing(Everywhere(d), [a, b])];
    assert EntryOf(s1, Everywhere(d)) == 0 && [a] + [b] == [a, b] && s1[0 := s2[0]] == s2;
    assert Invite([], a, Everywhere(d)) == s1 && Invite(s1, b, d) == s2;
    assert s2[0].domain != d && EntryOf(s2, d) == |s2|;
    Three(self, ns);
    assert ListedAt(s2, b, Everywhere(d), 0);
  }

  /** One that invites twice from one continuum stays invited when it ends it. */
  lemma InvitedTwice(self: ModuleId, a: ModuleId, d: Domain)
    requires self != a && d.subject > 0 && d.cont != 0
    ensures var ns := [Invited(a, d), Invited(a, d), Disinvited(a, d)];
      (a, d) !in AllWanted(self, {}, ns) && OnList(TakeAll(self, [], ns), a, d)
  {
    var ns := [Invited(a, d), Invited(a, d), Disinvited(a, d)];
    var l := Listing(d, [a]);
    assert Invite([], a, d) == [l] && Invite([l], a, d) == [l, l] && Disinvite([l, l], a, d) == [l];
    Three(self, ns);
    assert ListedAt([l], a, d, 0);
  }

  lemma Three(self: ModuleId, ns: seq<Notice>)
    requires |ns| == 3
    ensures TakeAll(self, [], ns) == Take(self, Take(self, Take(self, [], ns[0]), ns[1]), ns[2])
    ensures AllWanted(self, {}, ns) == Wanted(self, Wanted(self, Wanted(self, {}, ns[0]), ns[1]), ns[2])
  {
    assert ns == [ns[0]] + ([ns[1]] + ([ns[2]] + []));
    Onwards(self, [], {}, ns[0], [ns[1]] + ([ns[2]] + []));
    Onwards(self, Take(self, [], ns[0]), Wanted(self, {}, ns[0]), ns[1], [ns[2]] + []);
    Onwards(self, Take(self, Take(self, [], ns[0]), ns[1]), Wanted(self, Wanted(self, {}, ns[0]), ns[1]), ns[2], []);
  }

  lemma Onwards(self: ModuleId, s: seq<Listing>, w: set<(ModuleId, Domain)>, n: Notice, ns: seq<Notice>)
    ensures TakeAll(self, s, [n] + ns) == TakeAll(self, Take(self, s, n), ns)
    ensures AllWanted(self, w, [n] + ns) == AllWanted(self, Wanted(self, w, n), ns)
  {
    assert ([n] + ns)[1..] == ns;
  }

  // ---- Who gets a message ------------------------------------------------------------------------

  /** EnclosureSatisfiesInvitation. */
  predicate Welcomes(within: (nat, nat) -> bool, d: Domain, msg: Message) {
    && (d.subject == 0 || d.subject == msg.subject)
    && (d.cont == 0 || d.cont == msg.cont)
    && (d.unit == 0 || within(msg.unit, d.unit))
    && (d.role == 0 || d.role == msg.role)
  }

  /** An invitation from just one source welcomes its messages, and goes on
      doing so if it is for all subjects, continua, units or roles, or for a
      unit that the source is within. */
  lemma WelcomesItsSource(within: (nat, nat) -> bool, msg: Message)
    requires msg.role >= 0 && within(msg.unit, msg.unit)
    ensures Welcomes(within, Domain(msg.cont, msg.unit, msg.role, msg.subject), msg)
  {
  }

  lemma WelcomesMoreWidely(within: (nat, nat) -> bool, d: Domain, msg: Message, superunit: nat)
    requires Welcomes(within, d, msg) && within(msg.unit, superunit)
    ensures Welcomes(within, d.(subject := 0), msg) && Welcomes(within, d.(cont := 0), msg)
    ensures Welcomes(within, d.(role := 0), msg) && Welcomes(within, d.(unit := 0), msg)
    ensures Welcomes(within, d.(unit := superunit), msg)
  {
  }

  lemma WelcomesNoOther(within: (nat, nat) -> bool, d: Domain, msg: Message)
    requires (d.subject != 0 && d.subject != msg.subject) || (d.cont != 0 && d.cont != msg.cont)
      || (d.role != 0 && d.role != msg.role) || (d.unit != 0 && !within(msg.unit, d.unit))
    ensures !Welcomes(within, d, msg)
  {
  }

  /** MessageIsInvited; no message means an empty enclosure. */
  predicate IsInvited(within: (nat, nat) -> bool, s: seq<Listing>, msg: Option<Message>, m: ModuleId) {
    msg.Some? && exists l :: l in s && Welcomes(within, l.domain, msg.value) && m in l.modules
  }

  /** A module gets a message exactly if it wants messages of such a domain,
      as long as the set is right. */
  lemma GetsWhatIsWanted(
    within: (nat, nat) -> bool, s: seq<Listing>, w: set<(ModuleId, Domain)>, msg: Message, m: ModuleId)
    requires Right(s, w)
    ensures IsInvited(within, s, Some(msg), m) <==> exists d :: (m, d) in w && Welcomes(within, d, msg)
  {
    if IsInvited(within, s, Some(msg), m) {
      var l :| l in s && Welcomes(within, l.domain, msg) && m in l.modules;
      var i :| 0 <= i < |s| && s[i] == l;
      assert ListedAt(s, m, l.domain, i);
      assert OnList(s, m, l.domain);
    }
    if d :| (m, d) in w && Welcomes(within, d, msg) {
      assert OnList(s, m, d);
      var i: nat :| ListedAt(s, m, d, i);
      assert s[i] in s;
    }
  }

  /** ModuleIsInAnnouncementDomain. */
  predicate Addressed(within: (nat, nat) -> bool, roleOf: ModuleId -> int, m: ModuleId, unit: nat, role: nat) {
    (unit == 0 || unit == m.unitNbr || within(m.unitNbr, unit)) && (role == 0 || role == roleOf(m))
  }

  /** A module is addressed in its own unit and any unit that is within, in its
      own role, and in all units and all roles; not otherwise. */
  lemma AddressedWidely(within: (nat, nat) -> bool, roleOf: ModuleId -> int, m: ModuleId, unit: nat, role: nat)
    requires unit == 0 || unit == m.unitNbr || within(m.unitNbr, unit)
    requires role == 0 || role == roleOf(m)
    ensures Addressed(within, roleOf, m, unit, role)
  {
  }

  lemma AddressedNoOther(within: (nat, nat) -> bool, roleOf: ModuleId -> int, m: ModuleId, unit: nat, role: nat)
    requires (unit != 0 && unit != m.unitNbr && !within(m.unitNbr, unit)) || (role != 0 && role != roleOf(m))
    ensures !Addressed(within, roleOf, m, unit, role)
  {
  }

  /** The modules of the list that are addressed and not in r already. */
  function Gather(within: (nat, nat) -> bool, roleOf: ModuleId -> int, unit: nat, role: nat,
                  ms: seq<ModuleId>, r: seq<ModuleId>): (q: seq<ModuleId>)
    ensures NoRepeats(r) ==> NoRepeats(q)
    ensures forall m :: m in q <==> m in r || (m in ms && Addressed(within, roleOf, m, unit, role))
  {
    if ms == [] then r
    else
      var q, m := Gather(within, roleOf, unit, role, ms[..|ms|-1], r), ms[|ms|-1];
      assert ms == ms[..|ms|-1] + [m];
      if Addressed(within, roleOf, m, unit, role) && m !in q then q + [m] else q
  }

  /** The recipients HandleAnnouncedMessage compiles. */
  function Audience(within: (nat, nat) -> bool, roleOf: ModuleId -> int, s: seq<Listing>, msg: Option<Message>,
                    unit: nat, role: nat): (r: seq<ModuleId>)
    ensures NoRepeats(r)
    ensures forall m :: m in r <==>
      IsInvited(within, s, msg, m) && Addressed(within, roleOf, m, unit, role)
  {
    if s == [] then []
    else
      var r, l := Audience(within, roleOf, s[..|s|-1], msg, unit, role), s[|s|-1];
      assert s == s[..|s|-1] + [l];
      if msg.Some? && Welcomes(within, l.domain, msg.value)
      then Gather(within, roleOf, unit, role, l.modules, r)
      else r
  }

  // ---- The set itself ------------------------------------------------------------------------------

  class Invitation {
    const domain: Domain
    var moduleSet: seq<ModuleId>

    constructor (domain: Domain, m: ModuleId)
      ensures this.domain == domain && moduleSet == [m]
    {
      this.domain, moduleSet := domain, [m];
    }

    ghost function Value(): Listing
      reads this
    {
      Listing(domain, moduleSet)
    }
  }

  class InvitationSet {
    const self: ModuleId
    var items: seq<Invitation>

    ghost predicate Valid()
      reads this
    {
      forall i, j :: 0 <= i < j < |items| ==> items[i] != items[j]
    }

    ghost function View(): (s: seq<Listing>)
      reads this, items
      ensures |s| == |items| && forall i :: 0 <= i < |s| ==> s[i] == items[i].Value()
    {
      seq(|items|, i requires 0 <= i < |items| reads this, items => items[i].Value())
    }

    constructor (self: ModuleId)
      ensures Valid() && View() == [] && this.self == self
    {
      this.self, items := self, [];
    }

    method InvitationSetMember(d: Domain) returns (i: nat)
      ensures i == EntryOf(View(), d)
    {
      i := 0;
      while i < |items| && items[i].domain != d
        invariant i <= |items| && forall j :: 0 <= j < i ==> items[j].domain != d
      {
        i := i + 1;
      }
    }

    method HandleInvitation(m: ModuleId, d: Domain)
      requires Valid()
      modifies this, items
      ensures Valid() && View() == Take(self, old(View()), Invited(m, d))
    {
      if d.subject <= 0 || m == self { return; }
      var i := InvitationSetMember(Everywhere(d));
      if i == |items| {
        var inv := new Invitation(d, m);
        items := items + [inv];
      } else if m !in items[i].moduleSet {
        items[i].moduleSet := items[i].moduleSet + [m];
      }
    }

    method HandleDisinvitation(m: ModuleId, d: Domain)
      requires Valid()
      modifies this, items
      ensures Valid() && View() == Take(self, old(View()), Disinvited(m, d))
    {
      if m == self { return; }
      var i := InvitationSetMember(d);
      if i < |items| && m in items[i].moduleSet { Strike(m, d, i); }
    }

    method Strike(m: ModuleId, d: Domain, i: nat)
      requires Valid() && i < |items| && i == EntryOf(View(), d) && m in items[i].moduleSet
      modifies this`items, items[i]
      ensures Valid() && View() == Disinvite(old(View()), m, d)
    {
      ghost var was := View();
      var rest := RemoveFirst(items[i].moduleSet, m);
      assert was[i] == items[i].Value();
      if rest == [] {
        items := DeleteAt(items, i);
        assert View() == DeleteAt(was, i);
      } else {
        items[i].moduleSet := rest;
        assert View() == was[i := was[i].(modules := rest)];
      }
    }

    method MessageIsInvited(within: (nat, nat) -> bool, msg: Option<Message>, m: ModuleId) returns (yes: bool)
      ensures yes <==> IsInvited(within, View(), msg, m)
    {
      if msg.None? { return false; }
      for i := 0 to |items|
        invariant forall j :: 0 <= j < i ==> !(Welcomes(within, items[j].domain, msg.value) && m in items[j].moduleSet)
      {
        if Welcomes(within, items[i].domain, msg.value) && m in items[i].moduleSet {
          assert View()[i] in View();
          return true;
        }
      }
      yes := false;
    }

    method Recipients(within: (nat, nat) -> bool, roleOf: ModuleId -> int, msg: Option<Message>, unit: nat, role: nat)
      returns (r: seq<ModuleId>)
      ensures r == Audience(within, roleOf, View(), msg, unit, role)
    {
      ghost var s := View();
      r := [];
      for i := 0 to |items|
        invariant r == Audience(within, roleOf, s[..i], msg, unit, role)
      {
        assert s[..i+1][..i] == s[..i];
        if msg.Some? && Welcomes(within, items[i].domain, msg.value) {
          r := Compile(within, roleOf, unit, role, items[i].moduleSet, r);
        }
      }
      assert s[..|s|] == s;
    }

    method Compile(within: (nat, nat) -> bool, roleOf: ModuleId -> int, unit: nat, role: nat, ms: seq<ModuleId>,
                   was: seq<ModuleId>) returns (r: seq<ModuleId>)
      ensures r == Gather(within, roleOf, unit, role, ms, was)
    {
      r := was;
      for i := 0 to |ms|
        invariant r == Gather(within, roleOf, unit, role, ms[..i], was)
      {
        assert ms[..i+1][..i] == ms[..i];
        if Addressed(within, roleOf, ms[i], unit, role) && ms[i] !in r { r := r + [ms[i]]; }
      }
      assert ms[..|ms|] == ms;
    }
  }
}
