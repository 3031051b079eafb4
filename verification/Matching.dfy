/** What it means that a message satisfies a petition, and that the two tests
    on octets say the same as the one on fields. */
module Matching {
  import opened Lists
  import opened Octets
  import opened Units
  import opened Envelopes
  import Topology
  import Petitions
  import Relay

  type Domain = Petitions.Key
  type Unitary = (nat, nat) -> bool

  // ---- The test on fields --------------------------------------------------------------------------

  /** Each message satisfies the petition about just its own domain. */
  lemma OwnDomain(within: Unitary, m: Relay.Message)
    requires m.role >= 0 && within(m.unit, m.unit)
    ensures Relay.Satisfies(within, m, Petitions.Key(m.cont, m.unit, m.role, m.subject))
  {
  }

  /** It goes on doing so if the petition asks for all continua, all units, all
      roles, or a unit that the source is within. */
  lemma Wider(within: Unitary, m: Relay.Message, k: Domain, unit: nat)
    requires Relay.Satisfies(within, m, k) && within(m.unit, unit)
    ensures Relay.Satisfies(within, m, k.(cont := 0)) && Relay.Satisfies(within, m, k.(unit := 0))
    ensures Relay.Satisfies(within, m, k.(role := 0)) && Relay.Satisfies(within, m, k.(unit := unit))
  {
  }

  /** And only then: a petition about one subject, continuum, unit or role is
      not satisfied by a message of another. */
  lemma Refused(within: Unitary, m: Relay.Message, k: Domain)
    requires (m.subject != k.subject) || (k.cont != 0 && k.cont != m.cont) || (k.role != 0 && k.role != m.role)
      || (k.unit != 0 && !within(m.unit, k.unit))
    ensures !Relay.Satisfies(within, m, k)
  {
  }

  /** A gateway's declaration is for all continua, units and roles. */
  lemma DeclarationForAll(within: Unitary, m: Relay.Message, c: Topology.Node)
    ensures Relay.Satisfies(within, m, Petitions.OwnKey(c)) <==> m.subject + c == 0
  {
  }

  // ---- The tests on octets ------------------------------------------------------------------------

  function UnitsOf(names: Names): (w: Unitary) {
    (u: nat, v: nat) => Within(names, u, v)
  }

  /** The domain that a petition's envelope shows, if it is one. */
  function ShownKey(c: int, r: int, u: int, s: int, signed: bool): (k: Option<Domain>)
    requires InRange(c, r, u, s)
  {
    if Shown(c, signed) < 0 || Shown(u, signed) < 0 then None
    else Some(Petitions.Key(Shown(c, signed), Shown(u, signed), r, s))
  }

  /** Numbers whose low octets are below 128 are shown as they are. */
  lemma ShownAsIs(c: int, r: int, u: int, s: int, signed: bool)
    requires InRange(c, r, u, s) && (!signed || (c % 256 < 128 && u % 256 < 128))
    ensures ShownKey(c, r, u, s, signed) == Some(Petitions.Key(c, u, r, s))
  {
  }

  /** At the origin, the test is that on fields for the domain shown. */
  lemma OriginTests(names: Names, c: int, r: int, u: int, s: int, cc: int, m: Relay.Message, signed: bool)
    requires InRange(c, r, u, s)
    ensures var k := ShownKey(c, r, u, s, signed);
      MessageSatisfiesPetition(names, PetitionEnvelope(c, r, u, s, cc), m.cont, m.unit, m.role, m.subject, signed)
      <==> k.Some? && Relay.Satisfies(UnitsOf(names), m, k.value)
  {
    PetitionFields(c, r, u, s, cc, signed);
    ShownIsRead(c, signed);
    ShownIsRead(u, signed);
  }

  /** At a relay it is that test for the message with the role that the RPDU
      carries, 255 for a role unknown at the origin. */
  lemma RelayTests(names: Names, c: int, r: int, u: int, s: int, cc: int, to: int, mod: int, m: Relay.Message,
                   content: seq<byte>, context: seq<byte>, msgType: int, priority: int, flowLabel: byte, signed: bool)
    requires InRange(c, r, u, s) && |context| == 4 && |content| <= MAX_AMS_CONTENT && 0 <= mod < 256
    requires -1 <= m.role < 256 && m.cont < 0x8000 && m.unit < 0x1_0000 && -0x8000 <= m.subject < 0x8000
    ensures
      var rpdu := PublishedRpdu(to, m.role, m.cont, m.unit, mod, m.subject, content, context, msgType, priority, flowLabel);
      var k := ShownKey(c, r, u, s, signed);
      EnclosureSatisfiesPetition(names, PetitionEnvelope(c, r, u, s, cc), rpdu, signed)
      <==> k.Some? && Relay.Satisfies(UnitsOf(names), m.(role := if m.role == -1 then 255 else m.role), k.value)
  {
    var m' := m.(role := if m.role == -1 then 255 else m.role);
    var enc := MessageHeader(m.cont, m.unit, mod, m.subject, |content|, context, msgType, priority, flowLabel) + content;
    EnclosureRoundTrip(m.cont, m.unit, mod, m.subject, |content|, context, msgType, priority, flowLabel, content);
    RpduFields(to, m.role, m.subject, enc, signed);
    RelayReads(names, PetitionEnvelope(c, r, u, s, cc),
      PublishedRpdu(to, m.role, m.cont, m.unit, mod, m.subject, content, context, msgType, priority, flowLabel), enc, m',
      signed);
    OriginTests(names, c, r, u, s, cc, m', signed);
  }

  lemma RelayReads(names: Names, env: seq<byte>, rpdu: seq<byte>, enc: seq<byte>, m: Relay.Message, signed: bool)
    requires |env| >= ENVELOPELENGTH && |rpdu| >= ENVELOPELENGTH + AMSMSGHEADER && |enc| >= AMSMSGHEADER
    requires EnvelopeContent(rpdu, signed) == enc && EnvelopeHeader(rpdu, SourceIDField, signed) == m.role
    requires EnclosureHeader(enc, EncContinuumNbr) == m.cont && EnclosureHeader(enc, EncUnitNbr) == m.unit
    requires EnclosureHeader(enc, EncSubjectNbr) == m.subject
    ensures EnclosureSatisfiesPetition(names, env, rpdu, signed) ==
      MessageSatisfiesPetition(names, env, m.cont, m.unit, m.role, m.subject, signed)
  {
  }
}
