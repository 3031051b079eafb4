/** A cell's registrar: the census it takes of modules that outlived its
    predecessor, and the registration of new ones. */
module Registrars {
  import opened Lists
  import opened Octets
  import Resync
  import opened Codec
  import opened Cursors

  const N6_COUNT := 3
  const MAX_MODULE_NBR := 255

  /** What is known of one module number; a number without a role is unused. */
  datatype Slot = Slot(role: Option<nat>, missed: nat)

  /** flags: the modules that have yet to reconnect; number 0 is not used. */
  datatype State = State(heartbeats: nat, count: int, flags: seq<bool>, slots: seq<Slot>)

  predicate Sized(s: State) {
    |s.flags| == MAX_MODULE_NBR + 1 && |s.slots| == MAX_MODULE_NBR + 1
  }

  /** role: what the sender's role number stands for here, if anything; own:
      whether the module that stops is in this registrar's cell. */
  datatype Event = HeartbeatCycle(csKnown: bool)
                 | Heartbeat(mod: nat)
                 | Registration(text: seq<byte>, role: Option<nat>)
                 | Stopping(own: bool, mod: nat)
                 | Reconnection(text: seq<byte>, role: Option<nat>)

  datatype Outcome = Ignored | NoCensus | CellFull | Registered(mod: nat) | Dead | Reconnected(mod: nat)

  /** Module numbers in messages are those of modules: 1 to 255. */
  predicate Numbered(e: Event) {
    match e
    case Heartbeat(mod) => 1 <= mod <= MAX_MODULE_NBR
    case Stopping(_, mod) => 1 <= mod <= MAX_MODULE_NBR
    case Reconnection(text, _) => |text| >= 4 ==> text[2] != 0
    case _ => true
  }

  // ---- One step --------------------------------------------------------------------------------

  /** The heartbeat cycle for one module: imputed termination after three
      missed heartbeats, and one more missed. */
  function Beat(slot: Slot): Slot {
    if slot.role.None? then slot
    else if slot.missed == N6_COUNT then Slot(None, slot.missed + 1)
    else slot.(missed := slot.missed + 1)
  }

  function BeatAll(slots: seq<Slot>): (r: seq<Slot>)
    ensures |r| == |slots|
  {
    seq(|slots|, i requires 0 <= i < |slots| => if i == 0 then slots[i] else Beat(slots[i]))
  }

  /** nbr is the least unused module number; 0 if all are in use. */
  ghost predicate LeastUnused(slots: seq<Slot>, nbr: nat) {
    if nbr == 0 then forall i :: 1 <= i < |slots| ==> slots[i].role.Some?
    else nbr < |slots| && slots[nbr].role.None? && forall i :: 1 <= i < nbr ==> slots[i].role.Some?
  }

  function Unused(slots: seq<Slot>, i: nat): (nbr: nat)
    requires 1 <= i <= |slots| && forall j :: 1 <= j < i ==> slots[j].role.Some?
    ensures LeastUnused(slots, nbr) && (nbr == 0 || nbr < |slots|)
    decreases |slots| - i
  {
    if i == |slots| then 0 else if slots[i].role.None? then i else Unused(slots, i + 1)
  }

  lemma UnusedIsLeast(slots: seq<Slot>, nbr: nat)
    requires |slots| >= 1 && LeastUnused(slots, nbr)
    ensures Unused(slots, 1) == nbr
  {
  }

  function Register(s: State, text: seq<byte>, role: Option<nat>): (r: (State, Outcome))
    requires Sized(s)
  {
    if SkipContact(text).None? then (s, Ignored)
    else if s.heartbeats <= N6_COUNT then (s, NoCensus)
    else
      var nbr := Unused(s.slots, 1);
      if nbr == 0 then (s, CellFull)
      else (s.(slots := s.slots[nbr := s.slots[nbr].(role := role)]), Registered(nbr))
  }

  /** The number in an octet of the list of modules, read as a plain char. */
  predicate Countable(b: byte, signed: bool) {
    PlainChar(signed, b) > 0
  }

  /** Every octet but 0, as long as a plain char does not make it negative. */
  lemma CountableExactly(b: byte, signed: bool)
    ensures Countable(b, signed) <==> b != 0 && (signed ==> b < 128)
  {
  }

  /** Flags the modules listed. */
  function Load(flags: seq<bool>, known: seq<byte>, signed: bool): (r: seq<bool>)
    requires |flags| == MAX_MODULE_NBR + 1
    ensures |r| == |flags|
  {
    if known == [] then flags
    else
      var r, last := Load(flags, known[..|known|-1], signed), known[|known|-1];
      if Countable(last, signed) then r[last := true] else r
  }

  function Expect(s: State, known: seq<byte>, signed: bool): State
    requires Sized(s)
  {
    if s.count == 0 then s.(count := |known|, flags := Load(s.flags, known, signed)) else s
  }

  function Scratch(s: State, mod: byte): State
    requires Sized(s)
  {
    if s.flags[mod] then s.(count := s.count - 1, flags := s.flags[mod := false]) else s
  }

  function Readmit(s: State, r: Reconnect, role: Option<nat>, signed: bool): (q: (State, Outcome))
    requires Sized(s)
  {
    if s.count > 0 && !s.flags[r.mod] then (s, Dead)
    else if s.slots[r.mod].role.Some? then (s, Dead)
    else
      var s1 := s.(slots := s.slots[r.mod := s.slots[r.mod].(role := role)]);
      (Scratch(Expect(s1, r.known, signed), r.mod), Reconnected(r.mod))
  }

  function Rejoin(s: State, text: seq<byte>, role: Option<nat>, signed: bool): (r: (State, Outcome))
    requires Sized(s)
  {
    if |text| < 4 || Split(text[4..], NUL, NUL).None? then (s, Ignored)
    else if s.heartbeats > N6_COUNT then (s, Dead)
    else
      match ReadReconnect(text)
      case None => (s, Ignored)
      case Some(r) => Readmit(s, r, role, signed)
  }

  function Next(s: State, e: Event, signed: bool): (r: (State, Outcome))
    requires Sized(s) && Numbered(e)
  {
    match e
    case HeartbeatCycle(csKnown) =>
      (s.(heartbeats := s.heartbeats + if csKnown || s.heartbeats > 0 then 1 else 0, slots := BeatAll(s.slots)),
       Ignored)
    case Heartbeat(mod) =>
      (if s.slots[mod].role.Some? then s.(slots := s.slots[mod := s.slots[mod].(missed := 0)]) else s, Ignored)
    case Registration(text, role) => Register(s, text, role)
    case Stopping(own, mod) =>
      (if own then s.(slots := s.slots[mod := s.slots[mod].(role := None)]) else s, Ignored)
    case Reconnection(text, role) => Rejoin(s, text, role, signed)
  }

  // ---- The census count ------------------------------------------------------------------------

  ghost function Flagged(flags: seq<bool>): set<nat> {
    set i: nat | i < |flags| && flags[i]
  }

  /** The count of undeclared modules is the number of flags. */
  ghost predicate Counted(s: State) {
    s.count == |Flagged(s.flags)|
  }

  /** A list of modules that can be counted by its length. */
  ghost predicate Census(known: seq<byte>, signed: bool) {
    NoRepeats(known) && forall b :: b in known ==> Countable(b, signed)
  }

  lemma {:induction false} LoadFlags(flags: seq<bool>, known: seq<byte>, signed: bool)
    requires |flags| == MAX_MODULE_NBR + 1 && Flagged(flags) == {}
    ensures forall i: byte :: Load(flags, known, signed)[i] <==> i in known && Countable(i, signed)
  {
    if known == [] {
      forall i: byte ensures !flags[i] { assert i in Flagged(flags) <==> flags[i]; }
    } else {
      LoadFlags(flags, known[..|known|-1], signed);
      assert known == known[..|known|-1] + [known[|known|-1]];
    }
  }

  /** The number of flags set is the length of the list exactly if the list is
      a census. */
  lemma {:induction false} LoadCount(flags: seq<bool>, known: seq<byte>, signed: bool)
    requires |flags| == MAX_MODULE_NBR + 1 && Flagged(flags) == {}
    ensures |Flagged(Load(flags, known, signed))| <= |known|
    ensures |Flagged(Load(flags, known, signed))| == |known| <==> Census(known, signed)
  {
    if known != [] {
      var n := |known| - 1;
      var front, last := known[..n], known[n];
      LoadCount(flags, front, signed);
      LoadFlags(flags, front, signed);
      CensusStep(front, last, signed);
      assert known == front + [last];
      FlagCount(Load(flags, front, signed), last);
    }
  }

  lemma FlagCount(flags: seq<bool>, i: byte)
    requires |flags| == MAX_MODULE_NBR + 1
    ensures |Flagged(flags[i := true])| == |Flagged(flags)| + if flags[i] then 0 else 1
  {
    assert Flagged(flags[i := true]) == Flagged(flags) + {i as nat};
    assert i as nat in Flagged(flags) <==> flags[i];
  }

  lemma CensusStep(front: seq<byte>, last: byte, signed: bool)
    ensures Census(front + [last], signed) <==> Census(front, signed) && last !in front && Countable(last, signed)
  {
    var known := front + [last];
    assert forall b :: b in known <==> b in front || b == last;
    if Census(known, signed) {
      forall i, j | 0 <= i < j < |front| ensures front[i] != front[j] {
        assert known[i] != known[j];
      }
      forall j | 0 <= j < |front| ensures front[j] != last {
        assert known[j] != known[|front|];
      }
    }
  }

  lemma ScratchCount(s: State, mod: byte)
    requires Sized(s)
    ensures Counted(Scratch(s, mod)) <==> Counted(s)
  {
    if s.flags[mod] {
      assert Flagged(s.flags[mod := false]) == Flagged(s.flags) - {mod as nat};
      assert mod as nat in Flagged(s.flags);
    }
  }

  /** The list that a step takes over as the census, if it does. */
  function CensusTaken(s: State, e: Event, signed: bool): (r: Option<seq<byte>>)
    requires Sized(s) && Numbered(e)
  {
    if e.Reconnection? && Next(s, e, signed).1.Reconnected? && s.count == 0 && ReadReconnect(e.text).Some?
    then Some(ReadReconnect(e.text).value.known)
    else None
  }

  /** A step keeps the count right exactly if the list it takes over, if any,
      is a census. */
  lemma CountKept(s: State, e: Event, signed: bool)
    requires Sized(s) && Numbered(e) && Counted(s)
    ensures Sized(Next(s, e, signed).0)
    ensures Counted(Next(s, e, signed).0) <==>
      (CensusTaken(s, e, signed).Some? ==> Census(CensusTaken(s, e, signed).value, signed))
  {
    if e.Reconnection? && Next(s, e, signed).1.Reconnected? {
      var r := ReadReconnect(e.text).value;
      var s1 := s.(slots := s.slots[r.mod := s.slots[r.mod].(role := e.role)]);
      var s2 := Expect(s1, r.known, signed);
      ScratchCount(s2, r.mod);
      if s.count == 0 {
        LoadCount(s1.flags, r.known, signed);
      }
    }
  }

  /** A module that outlived its registrar is readmitted by the new one, as
      long as the census lasts, its number is not taken, and the first module
      to reconnect knew of it. */
  lemma Readmitted(s: State, unit: int, mod: int, roleNbr: int, c: Contact, d: Resync.Declaration, known: seq<byte>,
                   role: Option<nat>, signed: bool)
    requires Sized(s) && FitContact(c) && FitDeclaration(d) && |known| <= 255 && 1 <= mod <= MAX_MODULE_NBR
    requires s.heartbeats <= N6_COUNT && s.slots[mod].role.None? && (s.count > 0 ==> s.flags[mod])
    ensures Numbered(Reconnection(Supplement(unit, mod, roleNbr, c, d, known), role))
    ensures Next(s, Reconnection(Supplement(unit, mod, roleNbr, c, d, known), role), signed).1 == Reconnected(mod)
  {
    ReconnectRoundTrip(unit, mod, roleNbr, c, d, known);
  }

  // ---- Answers -----------------------------------------------------------------------------------

  /** A well-formed registration is refused while the census lasts, refused if
      all numbers are used, and otherwise given the least unused number; nothing
      else changes. */
  lemma RegistrationAnswered(s: State, text: seq<byte>, role: Option<nat>, signed: bool)
    requires Sized(s) && SkipContact(text).Some?
    ensures var (s', o) := Next(s, Registration(text, role), signed);
      && (o == NoCensus <==> s.heartbeats <= N6_COUNT)
      && (o == CellFull <==> s.heartbeats > N6_COUNT && forall i :: 1 <= i < |s.slots| ==> s.slots[i].role.Some?)
      && (o.Registered? ==> 1 <= o.mod < |s.slots| && LeastUnused(s.slots, o.mod))
      && (o.Registered? ==> s' == s.(slots := s.slots[o.mod := Slot(role, s.slots[o.mod].missed)]))
      && (o.NoCensus? || o.CellFull? || o.Registered?) && (!o.Registered? ==> s' == s)
  {
    UnusedIsLeast(s.slots, Unused(s.slots, 1));
  }

  /** A module's reconnect message is accepted if and only if the census lasts,
      its number is free, and the module is one that the census expects, if it
      has begun; otherwise the module is told to die, and nothing changes. */
  lemma ReconnectionAnswered(s: State, unit: int, mod: int, roleNbr: int, c: Contact, d: Resync.Declaration,
                             known: seq<byte>, role: Option<nat>, signed: bool)
    requires Sized(s) && FitContact(c) && FitDeclaration(d) && |known| <= 255 && 1 <= mod <= MAX_MODULE_NBR
    ensures Numbered(Reconnection(Supplement(unit, mod, roleNbr, c, d, known), role))
    ensures var (s', o) := Next(s, Reconnection(Supplement(unit, mod, roleNbr, c, d, known), role), signed);
      var welcome := s.heartbeats <= N6_COUNT && s.slots[mod].role.None? && (s.count > 0 ==> s.flags[mod]);
      && o == (if welcome then Reconnected(mod) else Dead)
      && (!welcome ==> s' == s)
      && (welcome ==> s'.slots == s.slots[mod := Slot(role, s.slots[mod].missed)] && !s'.flags[mod])
      && (welcome && s.count > 0 ==> forall i :: 0 <= i < |s.flags| && i != mod ==> s'.flags[i] == s.flags[i])
  {
    ReconnectRoundTrip(unit, mod, roleNbr, c, d, known);
  }

  /** What is not well-formed is ignored, but for reconnections once the census
      is over. */
  lemma MalformedAnswered(s: State, text: seq<byte>, role: Option<nat>, signed: bool)
    requires Sized(s)
    ensures SkipContact(text).None? ==> Next(s, Registration(text, role), signed) == (s, Ignored)
    ensures Numbered(Reconnection(text, role)) && ReadReconnect(text).None? ==>
      var (s', o) := Next(s, Reconnection(text, role), signed);
      s' == s && (o == Ignored || (o == Dead && s.heartbeats > N6_COUNT))
  {
  }

  // ---- Runs --------------------------------------------------------------------------------------

  function Run(s: State, events: seq<Event>, signed: bool): (r: State)
    requires Sized(s) && forall e :: e in events ==> Numbered(e)
    ensures Sized(r)
  {
    if events == [] then s else Next(Run(s, events[..|events|-1], signed), events[|events|-1], signed).0
  }

  /** The outcome of the k-th event of a run. */
  function At(s: State, events: seq<Event>, k: nat, signed: bool): (o: Outcome)
    requires Sized(s) && (forall e :: e in events ==> Numbered(e)) && k < |events|
  {
    Next(Run(s, events[..k], signed), events[k], signed).1
  }

  lemma BeatsGrow(s: State, e: Event, signed: bool)
    requires Sized(s) && Numbered(e)
    ensures Next(s, e, signed).0.heartbeats >= s.heartbeats
  {
  }

  lemma {:induction false} HeartbeatsGrow(s: State, events: seq<Event>, i: nat, j: nat, signed: bool)
    requires Sized(s) && (forall e :: e in events ==> Numbered(e)) && i <= j <= |events|
    ensures Run(s, events[..i], signed).heartbeats <= Run(s, events[..j], signed).heartbeats
    decreases j
  {
    if i < j {
      HeartbeatsGrow(s, events, i, j - 1, signed);
      assert events[..j][..j-1] == events[..j-1];
      BeatsGrow(Run(s, events[..j-1], signed), events[j-1], signed);
    }
  }

  /** In every run each accepted reconnection precedes each accepted
      registration: a number handed out is never claimed by a reconnect later. */
  lemma ReconnectionsComeFirst(s: State, events: seq<Event>, i: nat, j: nat, signed: bool)
    requires Sized(s) && (forall e :: e in events ==> Numbered(e)) && i < |events| && j < |events|
    requires At(s, events, i, signed).Registered? && At(s, events, j, signed).Reconnected?
    ensures j < i
  {
    if i <= j { HeartbeatsGrow(s, events, i, j, signed); }
  }

  /** The list taken over at the k-th event, if any, is a census. */
  ghost predicate CensusAt(s: State, events: seq<Event>, k: nat, signed: bool)
    requires Sized(s) && (forall e :: e in events ==> Numbered(e)) && k < |events|
  {
    var c := CensusTaken(Run(s, events[..k], signed), events[k], signed);
    c.Some? ==> Census(c.value, signed)
  }

  /** The count is right throughout every run in which each list taken over is
      a census. */
  lemma {:induction false} CountedThroughout(s: State, events: seq<Event>, k: nat, signed: bool)
    requires Sized(s) && (forall e :: e in events ==> Numbered(e)) && Counted(s) && k <= |events|
    requires forall i :: 0 <= i < k ==> CensusAt(s, events, i, signed)
    ensures Counted(Run(s, events[..k], signed))
    decreases k
  {
    if k > 0 {
      CountedThroughout(s, events, k - 1, signed);
      assert CensusAt(s, events, k - 1, signed);
      assert events[..k][..k-1] == events[..k-1];
      CountKept(Run(s, events[..k-1], signed), events[k-1], signed);
    }
  }

  // ---- Imputed termination -----------------------------------------------------------------------

  predicate Inherits(s: State, s': State, mod: nat, role: Option<nat>)
    requires Sized(s) && Sized(s')
  {
    1 <= mod <= MAX_MODULE_NBR && s.slots[mod].role.None? && s'.slots[mod] == Slot(role, s.slots[mod].missed)
  }

  /** A module that is admitted inherits the missed heartbeats counted for its
      number, whoever missed them. */
  lemma InheritedCount(s: State, e: Event, signed: bool)
    requires Sized(s) && Numbered(e)
    ensures var (s', o) := Next(s, e, signed);
      && (o.Registered? ==> e.Registration? && Inherits(s, s', o.mod, e.role))
      && (o.Reconnected? ==> e.Reconnection? && Inherits(s, s', o.mod, e.role))
  {
  }

  /** So it survives its first heartbeat cycle exactly if that count is not
      the one at which termination is imputed. */
  lemma FirstCycle(s: State, mod: nat, csKnown: bool, signed: bool)
    requires Sized(s) && 1 <= mod <= MAX_MODULE_NBR && s.slots[mod].role.Some?
    ensures Next(s, HeartbeatCycle(csKnown), signed).0.slots[mod].role.Some? <==> s.slots[mod].missed != N6_COUNT
    ensures Next(s, HeartbeatCycle(csKnown), signed).0.slots[mod].missed == s.slots[mod].missed + 1
  {
  }

  function Cycles(events: seq<Event>): (n: nat) {
    if events == [] then 0
    else Cycles(events[..|events|-1]) + if events[|events|-1].HeartbeatCycle? then 1 else 0
  }

  lemma {:induction false} CyclesGrow(events: seq<Event>, i: nat, j: nat)
    requires i <= j <= |events|
    ensures Cycles(events[..i]) <= Cycles(events[..j])
    decreases j
  {
    if i < j {
      CyclesGrow(events, i, j - 1);
      assert events[..j][..j-1] == events[..j-1];
    }
  }

  /** The module says nothing. */
  ghost predicate Silent(events: seq<Event>, mod: nat) {
    forall e :: e in events ==> e != Heartbeat(mod) && e != Stopping(true, mod)
  }

  /** Of the next n heartbeat cycles one finds just N6_COUNT heartbeats missed. */
  predicate Due(missed: nat, n: nat) {
    missed <= N6_COUNT < missed + n
  }

  /** A silent module stays, with one more heartbeat missed in each cycle,
      until its termination is due. */
  lemma {:induction false} SilentStays(s: State, events: seq<Event>, k: nat, mod: nat, signed: bool)
    requires Sized(s) && (forall e :: e in events ==> Numbered(e)) && 1 <= mod <= MAX_MODULE_NBR && k <= |events|
    requires s.slots[mod].role.Some? && Silent(events, mod)
    requires !Due(s.slots[mod].missed, Cycles(events[..k]))
    ensures Run(s, events[..k], signed).slots[mod] ==
      Slot(s.slots[mod].role, s.slots[mod].missed + Cycles(events[..k]))
    decreases k
  {
    if k > 0 {
      assert events[..k][..k-1] == events[..k-1] && events[k-1] in events;
      CyclesGrow(events, k - 1, k);
      SilentStays(s, events, k - 1, mod, signed);
      SilentStep(Run(s, events[..k-1], signed), events[k-1], mod, signed);
    }
  }

  lemma SilentStep(s: State, e: Event, mod: nat, signed: bool)
    requires Sized(s) && Numbered(e) && 1 <= mod <= MAX_MODULE_NBR && s.slots[mod].role.Some?
    requires e != Heartbeat(mod) && e != Stopping(true, mod)
    ensures Next(s, e, signed).0.slots[mod] == if e.HeartbeatCycle? then Beat(s.slots[mod]) else s.slots[mod]
  {
  }

  /** The k-th event of a run imputes the termination of a module. */
  ghost predicate Imputes(s: State, events: seq<Event>, k: nat, mod: nat, signed: bool)
    requires Sized(s) && (forall e :: e in events ==> Numbered(e)) && 1 <= mod <= MAX_MODULE_NBR
  {
    && k < |events| && events[k].HeartbeatCycle?
    && Run(s, events[..k], signed).slots[mod].role.Some?
    && Run(s, events[..k+1], signed).slots[mod].role.None?
  }

  /** The event at which the n-th cycle, counted from 0, comes. */
  lemma {:induction false} CycleAt(events: seq<Event>, n: nat) returns (k: nat)
    requires n < Cycles(events)
    ensures k < |events| && events[k].HeartbeatCycle? && Cycles(events[..k]) == n
  {
    k := |events| - 1;
    if !events[k].HeartbeatCycle? || Cycles(events[..k]) != n {
      ghost var i := CycleAt(events[..k], n);
      assert events[..k][..i] == events[..i];
      k := i;
    }
  }

  /** Termination is imputed to a silent module in a run exactly if the count
      it has inherited is at most N6_COUNT and the cycles take it beyond: with
      a higher count it never is, with N6_COUNT itself in the first cycle. */
  lemma ImputedExactly(s: State, events: seq<Event>, mod: nat, signed: bool)
    requires Sized(s) && (forall e :: e in events ==> Numbered(e)) && 1 <= mod <= MAX_MODULE_NBR
    requires s.slots[mod].role.Some? && Silent(events, mod)
    ensures (exists k :: Imputes(s, events, k, mod, signed)) <==> Due(s.slots[mod].missed, Cycles(events))
  {
    var missed := s.slots[mod].missed;
    assert events[..|events|] == events;
    if Due(missed, Cycles(events)) {
      var k := CycleAt(events, N6_COUNT - missed);
      SilentStays(s, events, k, mod, signed);
      assert events[..k+1][..k] == events[..k] && events[..k+1][k] == events[k];
      FirstCycle(Run(s, events[..k], signed), mod, events[k].csKnown, signed);
      assert Imputes(s, events, k, mod, signed);
    } else {
      forall k | 0 <= k < |events| ensures !Imputes(s, events, k, mod, signed) {
        CyclesGrow(events, k + 1, |events|);
        SilentStays(s, events, k + 1, mod, signed);
      }
    }
  }

  lemma RunAppend(s: State, events: seq<Event>, e: Event, signed: bool)
    requires Sized(s) && (forall x :: x in events ==> Numbered(x)) && Numbered(e)
    ensures Run(s, events + [e], signed) == Next(Run(s, events, signed), e, signed).0
  {
    assert (events + [e])[..|events|] == events;
  }

  // ---- Modules that are heard of -------------------------------------------------------------------

  ghost predicate Staying(events: seq<Event>, mod: nat) {
    forall e :: e in events ==> e != Stopping(true, mod)
  }

  /** After a heartbeat a registered module is as one that has missed none,
      whatever happens then. */
  lemma HeardAsNew(s: State, mod: nat, events: seq<Event>, signed: bool)
    requires Sized(s) && 1 <= mod <= MAX_MODULE_NBR && s.slots[mod].role.Some?
    requires forall e :: e in events ==> Numbered(e)
    ensures Run(Next(s, Heartbeat(mod), signed).0, events, signed) ==
      Run(s.(slots := s.slots[mod := Slot(s.slots[mod].role, 0)]), events, signed)
  {
  }

  /** How many cycles have gone by since the module was last heard of, or since
      the start, when it had missed so many. */
  function Count(missed: nat, events: seq<Event>, mod: nat): (n: nat) {
    if events == [] then missed
    else if events[|events|-1] == Heartbeat(mod) then 0
    else
      Count(missed, events[..|events|-1], mod) + if events[|events|-1].HeartbeatCycle? then 1 else 0
  }

  /** The k-th event is a cycle that finds just N6_COUNT heartbeats missed. */
  ghost predicate Overdue(missed: nat, events: seq<Event>, mod: nat, k: int) {
    0 <= k < |events| && events[k].HeartbeatCycle? && Count(missed, events[..k], mod) == N6_COUNT
  }

  lemma HeardStep(s: State, e: Event, mod: nat, signed: bool)
    requires Sized(s) && Numbered(e) && 1 <= mod <= MAX_MODULE_NBR && s.slots[mod].role.Some?
    requires e != Stopping(true, mod)
    ensures Next(s, e, signed).0.slots[mod] ==
      if e.HeartbeatCycle? then Beat(s.slots[mod])
      else if e == Heartbeat(mod) then Slot(s.slots[mod].role, 0) else s.slots[mod]
  {
    if e != Heartbeat(mod) { SilentStep(s, e, mod, signed); }
  }

  /** Until then it is registered, with that count. */
  lemma {:induction false} CountedWhileHeard(s: State, events: seq<Event>, k: nat, mod: nat, signed: bool)
    requires Sized(s) && (forall e :: e in events ==> Numbered(e)) && 1 <= mod <= MAX_MODULE_NBR && k <= |events|
    requires s.slots[mod].role.Some? && Staying(events, mod)
    requires forall j :: 0 <= j < k ==> !Overdue(s.slots[mod].missed, events, mod, j)
    ensures Run(s, events[..k], signed).slots[mod] ==
      Slot(s.slots[mod].role, Count(s.slots[mod].missed, events[..k], mod))
    decreases k
  {
    if k > 0 {
      assert events[..k][..k-1] == events[..k-1] && events[k-1] in events;
      CountedWhileHeard(s, events, k - 1, mod, signed);
      assert !Overdue(s.slots[mod].missed, events, mod, k - 1);
      HeardStep(Run(s, events[..k-1], signed), events[k-1], mod, signed);
    }
  }

  /** A module that does not stop is terminated in a run exactly if some cycle
      finds it overdue. */
  lemma ImputedWhenOverdue(s: State, events: seq<Event>, mod: nat, signed: bool)
    requires Sized(s) && (forall e :: e in events ==> Numbered(e)) && 1 <= mod <= MAX_MODULE_NBR
    requires s.slots[mod].role.Some? && Staying(events, mod)
    ensures (exists k :: Imputes(s, events, k, mod, signed)) <==>
      exists k :: Overdue(s.slots[mod].missed, events, mod, k)
  {
    var missed := s.slots[mod].missed;
    if k :| Overdue(missed, events, mod, k) {
      var j := FirstOverdue(missed, events, mod, k);
      CountedWhileHeard(s, events, j, mod, signed);
      NextPrefix(s, events, j, signed);
      assert Imputes(s, events, j, mod, signed);
    } else {
      forall k | 0 <= k < |events| ensures !Imputes(s, events, k, mod, signed) {
        CountedWhileHeard(s, events, k + 1, mod, signed);
      }
    }
  }

  lemma NextPrefix(s: State, events: seq<Event>, k: nat, signed: bool)
    requires Sized(s) && (forall e :: e in events ==> Numbered(e)) && k < |events|
    ensures Run(s, events[..k+1], signed) == Next(Run(s, events[..k], signed), events[k], signed).0
  {
    assert events[..k+1][..k] == events[..k];
  }

  lemma {:induction false} FirstOverdue(missed: nat, events: seq<Event>, mod: nat, k: int) returns (j: nat)
    requires Overdue(missed, events, mod, k)
    ensures Overdue(missed, events, mod, j) && forall i :: 0 <= i < j ==> !Overdue(missed, events, mod, i)
    decreases k
  {
    if i :| 0 <= i < k && Overdue(missed, events, mod, i) {
      j := FirstOverdue(missed, events, mod, i);
    } else {
      j := k;
    }
  }

  /** Between i and k the module is not heard of for too long: from its last
      heartbeat before i, more than N6_COUNT cycles; from the start, enough
      cycles to take what it had missed beyond N6_COUNT. */
  ghost predicate Lapse(missed: nat, events: seq<Event>, mod: nat, i: nat, k: nat) {
    && i <= k <= |events| && Heartbeat(mod) !in events[i..k]
    && if i == 0 then Due(missed, Cycles(events[..k]))
       else events[i-1] == Heartbeat(mod) && Cycles(events[i..k]) > N6_COUNT
  }

  /** What the module had missed at i. */
  function Base(missed: nat, i: nat): nat {
    if i == 0 then missed else 0
  }

  lemma {:induction false} CountFrom(missed: nat, events: seq<Event>, mod: nat, i: nat)
    requires i <= |events| && Heartbeat(mod) !in events[i..] && (i == 0 || events[i-1] == Heartbeat(mod))
    ensures Count(missed, events, mod) == Base(missed, i) + Cycles(events[i..])
    decreases |events|
  {
    if i == |events| {
      if i > 0 { assert events[|events|-1] == Heartbeat(mod); }
    } else {
      var n := |events| - 1;
      assert events[i..][..n-i] == events[..n][i..] && events[n] == events[i..][n-i];
      assert events[n] in events[i..];
      CountFrom(missed, events[..n], mod, i);
    }
  }

  /** Where the module was last heard of. */
  lemma {:induction false} LastHeard(events: seq<Event>, mod: nat) returns (i: nat)
    ensures i <= |events| && Heartbeat(mod) !in events[i..] && (i == 0 || events[i-1] == Heartbeat(mod))
  {
    i := |events|;
    while i > 0 && events[i-1] != Heartbeat(mod)
      invariant i <= |events| && Heartbeat(mod) !in events[i..]
    {
      assert events[i-1..] == [events[i-1]] + events[i..];
      i := i - 1;
    }
  }

  lemma OverdueIsLapse(missed: nat, events: seq<Event>, mod: nat, k: nat) returns (i: nat)
    requires Overdue(missed, events, mod, k)
    ensures Lapse(missed, events, mod, i, k + 1)
  {
    i := LastHeard(events[..k], mod);
    CountFrom(missed, events[..k], mod, i);
    assert events[i..k+1] == events[..k][i..] + [events[k]];
    assert events[i..k+1][..k-i] == events[..k][i..];
  }

  lemma LapseIsOverdue(missed: nat, events: seq<Event>, mod: nat, i: nat, k: nat) returns (j: nat)
    requires Lapse(missed, events, mod, i, k)
    ensures Overdue(missed, events, mod, j)
  {
    var window := events[i..k];
    assert i == 0 ==> window == events[..k];
    var n := CycleAt(window, N6_COUNT - Base(missed, i));
    j := i + n;
    assert events[..j][i..] == window[..n] && events[j] == window[n];
    forall e | e in events[..j][i..] ensures e != Heartbeat(mod) { assert e in window; }
    CountFrom(missed, events[..j], mod, i);
  }

  /** In every run, a module that does not stop is terminated by imputation if
      and only if it is not heard of for too long: between two heartbeats, or
      after the last, at most N6_COUNT cycles may go by. */
  lemma ImputedIfUnheard(s: State, events: seq<Event>, mod: nat, signed: bool)
    requires Sized(s) && (forall e :: e in events ==> Numbered(e)) && 1 <= mod <= MAX_MODULE_NBR
    requires s.slots[mod].role.Some? && Staying(events, mod)
    ensures (exists k :: Imputes(s, events, k, mod, signed)) <==>
      exists i, k :: Lapse(s.slots[mod].missed, events, mod, i, k)
  {
    var missed := s.slots[mod].missed;
    ImputedWhenOverdue(s, events, mod, signed);
    if k :| Overdue(missed, events, mod, k) {
      var i := OverdueIsLapse(missed, events, mod, k);
      assert Lapse(missed, events, mod, i, k + 1);
    }
    if i, k :| Lapse(missed, events, mod, i, k) {
      var j := LapseIsOverdue(missed, events, mod, i, k);
      assert Overdue(missed, events, mod, j);
    }
  }

  /** One that is heard of in time stays registered, in its role. */
  lemma HeardInTime(s: State, events: seq<Event>, mod: nat, signed: bool)
    requires Sized(s) && (forall e :: e in events ==> Numbered(e)) && 1 <= mod <= MAX_MODULE_NBR
    requires s.slots[mod].role.Some? && Staying(events, mod)
    requires forall i, k :: !Lapse(s.slots[mod].missed, events, mod, i, k)
    ensures Run(s, events, signed).slots[mod].role == s.slots[mod].role
  {
    forall j: nat | j < |events| ensures !Overdue(s.slots[mod].missed, events, mod, j) {
      if Overdue(s.slots[mod].missed, events, mod, j) {
        var i := OverdueIsLapse(s.slots[mod].missed, events, mod, j);
        assert false;
      }
    }
    assert events[..|events|] == events;
    CountedWhileHeard(s, events, |events|, mod, signed);
  }

  // ---- How long the census lasts -------------------------------------------------------------------

  /** i is the first cycle in which the registrar knows its configuration
      server, or the end if there is none. */
  ghost predicate FirstKnown(events: seq<Event>, i: nat) {
    && i <= |events| && (forall j :: 0 <= j < i ==> events[j] != HeartbeatCycle(true))
    && (i < |events| ==> events[i] == HeartbeatCycle(true))
  }

  lemma CycleStep(s: State, e: Event, signed: bool)
    requires Sized(s) && Numbered(e)
    ensures Next(s, e, signed).0.heartbeats ==
      s.heartbeats + if e.HeartbeatCycle? && (e.csKnown || s.heartbeats > 0) then 1 else 0
  {
  }

  lemma CyclesLast(events: seq<Event>, i: nat)
    requires i < |events|
    ensures Cycles(events[i..]) ==
      Cycles(events[..|events|-1][i..]) + if events[|events|-1].HeartbeatCycle? then 1 else 0
  {
    var n := |events| - 1;
    assert events[i..][..n-i] == events[..n][i..] && events[n] == events[i..][n-i];
  }

  /** From then on the cycles are counted. */
  lemma {:induction false} CyclesCounted(s: State, events: seq<Event>, i: nat, signed: bool)
    requires Sized(s) && (forall e :: e in events ==> Numbered(e)) && s.heartbeats == 0 && FirstKnown(events, i)
    ensures Run(s, events, signed).heartbeats == Cycles(events[i..])
    decreases |events|
  {
    if events != [] {
      var n := |events| - 1;
      assert events[n] in events;
      CyclesCounted(s, events[..n], if i <= n then i else n, signed);
      CycleStep(Run(s, events[..n], signed), events[n], signed);
      if i <= n {
        CyclesLast(events, i);
        if i < n { SomeCycle(events[..n][i..]); } else { assert events[..n][i..] == []; }
      } else {
        assert events[i..] == [] && events[..n][n..] == [];
      }
    }
  }

  lemma {:induction false} SomeCycle(events: seq<Event>)
    requires events != [] && events[0].HeartbeatCycle?
    ensures Cycles(events) > 0
  {
    if |events| > 1 { SomeCycle(events[..|events|-1]); }
  }

  /** A well-formed registration is refused for the census exactly if at most
      N6_COUNT cycles have been counted. */
  lemma CensusLasts(s: State, events: seq<Event>, i: nat, text: seq<byte>, role: Option<nat>, signed: bool)
    requires Sized(s) && (forall e :: e in events ==> Numbered(e)) && s.heartbeats == 0 && FirstKnown(events, i)
    requires SkipContact(text).Some?
    ensures Next(Run(s, events, signed), Registration(text, role), signed).1 == NoCensus <==>
      Cycles(events[i..]) <= N6_COUNT
  {
    CyclesCounted(s, events, i, signed);
    RegistrationAnswered(Run(s, events, signed), text, role, signed);
  }

  /** The smallest well-formed registration: no name, no delivery vectors. */
  function Newcomer(role: nat): (e: Event) {
    Registration([NUL, 0], Some(role))
  }

  /** A module registers as number 1, says nothing for three cycles and stops. */
  function Predecessor(): (events: seq<Event>)
    ensures forall e :: e in events ==> Numbered(e)
  {
    var c := HeartbeatCycle(true);
    [c, c, c, c, Newcomer(1), c, c, c, Stopping(true, 1)]
  }

  /** A registrar's first cycles. */
  lemma {:induction false} Cycling(s: State, n: nat, signed: bool)
    requires Sized(s)
    ensures var c := seq(n, _ => HeartbeatCycle(true));
      && Run(s, c, signed).heartbeats == s.heartbeats + n
      && (s.slots[1].role.None? ==> Run(s, c, signed).slots[1] == s.slots[1])
      && (s.slots[1].role.Some? && s.slots[1].missed + n <= N6_COUNT ==>
            Run(s, c, signed).slots[1] == Slot(s.slots[1].role, s.slots[1].missed + n))
  {
    if n > 0 {
      var c := seq(n, _ => HeartbeatCycle(true));
      assert c[..n-1] == seq(n - 1, _ => HeartbeatCycle(true));
      Cycling(s, n - 1, signed);
    }
  }

  lemma Admitted(s: State, role: nat, signed: bool)
    requires Sized(s) && s.heartbeats > N6_COUNT && s.slots[1].role.None?
    ensures Next(s, Newcomer(role), signed) ==
      (s.(slots := s.slots[1 := Slot(Some(role), s.slots[1].missed)]), Registered(1))
  {
    var text: seq<byte> := [NUL, 0];
    assert Split(text, NUL, NUL) == Some(Parsed([], text[1..]));
    assert SkipVectorList(text[1..]) == SkipVectors(text[1..][1..], 0);
  }

  lemma {:induction false} RunTwice(s: State, a: seq<Event>, b: seq<Event>, signed: bool)
    requires Sized(s) && (forall e :: e in a ==> Numbered(e)) && (forall e :: e in b ==> Numbered(e))
    ensures Run(s, a + b, signed) == Run(Run(s, a, signed), b, signed)
  {
    if b == [] {
      assert a + b == a;
    } else {
      var front, last := b[..|b|-1], b[|b|-1];
      RunTwice(s, a, front, signed);
      RunAppend(s, a + front, last, signed);
      assert a + b == a + front + [last];
    }
  }

  /** Which leaves the count of number 1 at three. */
  lemma Predecessed(s: State, signed: bool)
    requires Sized(s) && s.heartbeats == 0 && s.slots[1] == Slot(None, 0)
    ensures var s' := Run(s, Predecessor(), signed); s'.heartbeats == 7 && s'.slots[1] == Slot(None, N6_COUNT)
  {
    var c := HeartbeatCycle(true);
    var four, three := seq(4, _ => c), seq(3, _ => c);
    Cycling(s, 4, signed);
    var s1 := Run(s, four, signed);
    Admitted(s1, 1, signed);
    RunAppend(s, four, Newcomer(1), signed);
    var s2 := Next(s1, Newcomer(1), signed).0;
    Cycling(s2, 3, signed);
    RunTwice(s, four + [Newcomer(1)], three, signed);
    RunAppend(s, four + [Newcomer(1)] + three, Stopping(true, 1), signed);
    assert four + [Newcomer(1)] + three + [Stopping(true, 1)] == Predecessor();
  }

  /** After that the next module to register as number 1 is terminated in its
      first cycle, having missed nothing. */
  lemma InnocentTerminated(s: State, signed: bool)
    requires Sized(s) && s.heartbeats == 0 && s.slots[1] == Slot(None, 0)
    ensures var events := Predecessor() + [Newcomer(2), HeartbeatCycle(true)];
      && (forall e :: e in events ==> Numbered(e))
      && At(s, events, 9, signed) == Registered(1) && Imputes(s, events, 10, 1, signed)
  {
    var c := HeartbeatCycle(true);
    Predecessed(s, signed);
    Admitted(Run(s, Predecessor(), signed), 2, signed);
    RunAppend(s, Predecessor(), Newcomer(2), signed);
    var events := Predecessor() + [Newcomer(2), c];
    assert events[..9] == Predecessor() && events[..10] == Predecessor() + [Newcomer(2)];
    assert events[..11] == Predecessor() + [Newcomer(2)] + [c];
    RunAppend(s, Predecessor() + [Newcomer(2)], c, signed);
  }

  // ---- The registrar -----------------------------------------------------------------------------

  class Registrar {
    var cellHeartbeats: nat
    var undeclaredModulesCount: int
    const undeclaredModules: array<bool>
    const modules: array<Slot>

    ghost predicate Valid()
      reads this, undeclaredModules, modules
    {
      undeclaredModules.Length == MAX_MODULE_NBR + 1 && modules.Length == MAX_MODULE_NBR + 1
    }

    ghost function View(): (s: State)
      requires Valid()
      reads this, undeclaredModules, modules
      ensures Sized(s)
    {
      State(cellHeartbeats, undeclaredModulesCount, undeclaredModules[..], modules[..])
    }

    constructor ()
      ensures Valid() && fresh(undeclaredModules) && fresh(modules)
      ensures Counted(View()) && View().heartbeats == 0 && View().count == 0
      ensures forall i :: 0 <= i < modules.Length ==> modules[i] == Slot(None, 0)
    {
      cellHeartbeats, undeclaredModulesCount := 0, 0;
      undeclaredModules := new bool[MAX_MODULE_NBR + 1](_ => false);
      modules := new Slot[MAX_MODULE_NBR + 1](_ => Slot(None, 0));
      new;
      assert Flagged(undeclaredModules[..]) == {};
    }

    method ProcessHeartbeatCycle(csKnown: bool)
      requires Valid()
      modifies this`cellHeartbeats, modules
      ensures Valid() && View() == Next(old(View()), HeartbeatCycle(csKnown), false).0
    {
      if csKnown || cellHeartbeats > 0 { cellHeartbeats := cellHeartbeats + 1; }
      ghost var was, beats := modules[..], cellHeartbeats;
      for i := 1 to MAX_MODULE_NBR + 1
        invariant cellHeartbeats == beats
        invariant forall j :: 0 <= j < modules.Length ==> modules[j] == if 1 <= j < i then Beat(was[j]) else was[j]
      {
        var slot := modules[i];
        if slot.role.Some? {
          if slot.missed == N6_COUNT { slot := slot.(role := None); }
          modules[i] := slot.(missed := slot.missed + 1);
        }
      }
      assert modules[..] == BeatAll(was);
    }

    method HandleHeartbeat(mod: nat)
      requires Valid() && 1 <= mod <= MAX_MODULE_NBR
      modifies modules
      ensures Valid() && View() == Next(old(View()), Heartbeat(mod), false).0
    {
      if modules[mod].role.Some? { modules[mod] := modules[mod].(missed := 0); }
    }

    method HandleStopping(own: bool, mod: nat)
      requires Valid() && 1 <= mod <= MAX_MODULE_NBR
      modifies modules
      ensures Valid() && View() == Next(old(View()), Stopping(own, mod), false).0
    {
      if own { modules[mod] := modules[mod].(role := None); }
    }

    method FindUnused() returns (nbr: nat)
      requires Valid()
      ensures LeastUnused(modules[..], nbr) && nbr < modules.Length
    {
      nbr := 0;
      for i := 1 to MAX_MODULE_NBR + 1
        invariant nbr < i && (nbr == 0 ==> forall j :: 1 <= j < i ==> modules[j].role.Some?)
        invariant nbr > 0 ==> LeastUnused(modules[..], nbr)
      {
        if modules[i].role.None? && nbr == 0 { nbr := i; }
      }
    }

    method HandleRegistration(text: seq<byte>, role: Option<nat>) returns (o: Outcome)
      requires Valid()
      modifies modules
      ensures Valid() && (View(), o) == Next(old(View()), Registration(text, role), false)
    {
      assert From(text, 0) == text;
      var found, end := Scan(text, 0, NUL, NUL);
      if !found { return Ignored; }
      var ok, c := SkipDeliveryVectorList(text, end + 1);
      if !ok { return Ignored; }
      if cellHeartbeats <= N6_COUNT { return NoCensus; }
      var nbr := FindUnused();
      UnusedIsLeast(modules[..], nbr);
      if nbr == 0 { return CellFull; }
      modules[nbr] := modules[nbr].(role := role);
      o := Registered(nbr);
    }

    method LoadUndeclared(known: seq<byte>, signed: bool)
      requires Valid()
      modifies undeclaredModules
      ensures Valid() && undeclaredModules[..] == Load(old(undeclaredModules[..]), known, signed)
    {
      ghost var was := undeclaredModules[..];
      for k := 0 to |known|
        invariant Valid() && undeclaredModules[..] == Load(was, known[..k], signed)
      {
        assert known[..k+1][..k] == known[..k];
        var i := PlainChar(signed, known[k]);
        if i > 0 { undeclaredModules[i] := true; }
      }
      assert known[..|known|] == known;
    }

    method HandleReconnect(text: seq<byte>, role: Option<nat>, signed: bool) returns (o: Outcome)
      requires Valid() && Numbered(Reconnection(text, role))
      modifies this`undeclaredModulesCount, undeclaredModules, modules
      ensures Valid() && (View(), o) == Next(old(View()), Reconnection(text, role), signed)
    {
      if |text| < 4 { return Ignored; }
      assert From(text, 4) == text[4..];
      var found, end := Scan(text, 4, NUL, NUL);
      if !found { return Ignored; }
      if cellHeartbeats > N6_COUNT { return Dead; }
      var r := CheckReconnect(text);
      if r.None? { return Ignored; }
      o := Admit(r.value, role, signed);
    }

    method Admit(r: Reconnect, role: Option<nat>, signed: bool) returns (o: Outcome)
      requires Valid()
      modifies this`undeclaredModulesCount, undeclaredModules, modules
      ensures Valid() && (View(), o) == Readmit(old(View()), r, role, signed)
    {
      if undeclaredModulesCount > 0 && !undeclaredModules[r.mod] { return Dead; }
      if modules[r.mod].role.Some? { return Dead; }
      modules[r.mod] := modules[r.mod].(role := role);
      if undeclaredModulesCount == 0 {
        undeclaredModulesCount := |r.known|;
        LoadUndeclared(r.known, signed);
      }
      if undeclaredModules[r.mod] {
        undeclaredModules[r.mod] := false;
        undeclaredModulesCount := undeclaredModulesCount - 1;
      }
      o := Reconnected(r.mod);
    }
  }
}
