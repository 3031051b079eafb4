/** RAMS envelopes and enclosures as octets, and petitions read from them. */
module Envelopes {
  import opened Octets
  import opened Units

  const ENVELOPELENGTH := 12
  const AMSMSGHEADER := 16
  const MAX_AMS_CONTENT := 65000

  /** The first twelve octets of an envelope. */
  function Header(controlCode: int, continuum: int, unit: int, source: int, dest: int, subject: int,
                  enclosureLength: int): (env: seq<byte>)
    ensures |env| == ENVELOPELENGTH
  {
    [controlCode % 16, 0, High(continuum) % 128, Low(continuum), High(unit), Low(unit), Low(source), Low(dest),
     High(subject), Low(subject), High(enclosureLength), Low(enclosureLength)]
  }

  method ConstructEnvelope(envelope: array<byte>, destContinuum: int, unit: int, sourceID: int, destID: int,
                           subject: int, enclosure: seq<byte>, controlCode: int)
    requires envelope.Length >= ENVELOPELENGTH + |enclosure|
    modifies envelope
    ensures envelope[..ENVELOPELENGTH + |enclosure|] ==
      Header(controlCode, destContinuum, unit, sourceID, destID, subject, |enclosure|) + enclosure
    ensures envelope[ENVELOPELENGTH + |enclosure|..] == old(envelope[ENVELOPELENGTH + |enclosure|..])
  {
    WriteEnvelopeHeader(envelope, destContinuum, unit, sourceID, destID, subject, |enclosure|, controlCode);
    ghost var header := envelope[..ENVELOPELENGTH];
    forall i | 0 <= i < |enclosure| { envelope[ENVELOPELENGTH + i] := enclosure[i]; }
    assert envelope[..ENVELOPELENGTH] == header;
    assert envelope[ENVELOPELENGTH..ENVELOPELENGTH + |enclosure|] == enclosure;
    assert envelope[..ENVELOPELENGTH + |enclosure|] == header + enclosure;
  }

  method WriteEnvelopeHeader(envelope: array<byte>, destContinuum: int, unit: int, sourceID: int, destID: int,
                             subject: int, length: int, controlCode: int)
    requires envelope.Length >= ENVELOPELENGTH
    modifies envelope
    ensures envelope[..ENVELOPELENGTH] == Header(controlCode, destContinuum, unit, sourceID, destID, subject, length)
    ensures envelope[ENVELOPELENGTH..] == old(envelope[ENVELOPELENGTH..])
  {
    envelope[0], envelope[1] := controlCode % 16, 0;
    envelope[2], envelope[3] := High(destContinuum) % 128, Low(destContinuum);
    envelope[4], envelope[5] := High(unit), Low(unit);
    envelope[6], envelope[7] := Low(sourceID), Low(destID);
    envelope[8], envelope[9] := High(subject), Low(subject);
    envelope[10], envelope[11] := High(length), Low(length);
  }

  datatype EnvelopeField = ControlCode | ContinuumNbr | UnitField | SourceIDField | DestIDField | SubjectNbr
                         | EnclosureLength

  /** signed: whether a plain char is signed, which two of the fields depend on. */
  function EnvelopeHeader(env: seq<byte>, field: EnvelopeField, signed: bool): (num: int)
    requires |env| >= ENVELOPELENGTH
  {
    match field
    case ControlCode => env[0] % 16
    case ContinuumNbr => env[2] % 128 * 256 + PlainChar(signed, env[3])
    case UnitField => env[4] * 256 + PlainChar(signed, env[5])
    case SourceIDField => env[6]
    case DestIDField => env[7]
    case SubjectNbr => S16(env[8], env[9])
    case EnclosureLength => U16(env[10], env[11])
  }

  lemma HeaderComesFirst(env: seq<byte>, rest: seq<byte>, field: EnvelopeField, signed: bool)
    requires |env| == ENVELOPELENGTH
    ensures EnvelopeHeader(env + rest, field, signed) == EnvelopeHeader(env, field, signed)
  {
    assert forall i :: 0 <= i < ENVELOPELENGTH ==> (env + rest)[i] == env[i];
  }

  /** What each field of an envelope is meant to hold. */
  datatype Fields = Fields(cc: int, continuum: int, unit: int, source: int, dest: int, subject: int, length: int)

  function FieldOf(f: Fields, field: EnvelopeField): int {
    match field
    case ControlCode => f.cc
    case ContinuumNbr => f.continuum
    case UnitField => f.unit
    case SourceIDField => f.source
    case DestIDField => f.dest
    case SubjectNbr => f.subject
    case EnclosureLength => f.length
  }

  predicate Fit(f: Fields) {
    && 0 <= f.cc < 16 && 0 <= f.continuum < 0x8000 && 0 <= f.unit < 0x1_0000 && 0 <= f.source < 256
    && 0 <= f.dest < 256 && -0x8000 <= f.subject < 0x8000 && 0 <= f.length < 0x1_0000
  }

  /** What is read from a field of an envelope. */
  function Read(f: Fields, field: EnvelopeField, signed: bool): int {
    if field == ContinuumNbr || field == UnitField
    then High(FieldOf(f, field)) * 256 + PlainChar(signed, Low(FieldOf(f, field)))
    else FieldOf(f, field)
  }

  lemma HeaderRead(f: Fields, field: EnvelopeField, signed: bool)
    requires Fit(f)
    ensures EnvelopeHeader(HeaderOf(f), field, signed) == Read(f, field, signed)
  {
    match field
    case ContinuumNbr => U16RoundTrip(f.continuum);
    case SubjectNbr => S16RoundTrip(f.subject);
    case EnclosureLength => U16RoundTrip(f.length);
    case _ =>
  }

  function HeaderOf(f: Fields): (env: seq<byte>)
    ensures |env| == ENVELOPELENGTH
  {
    Header(f.cc, f.continuum, f.unit, f.source, f.dest, f.subject, f.length)
  }

  /** What is read from an envelope is what was put in, except that with a
      signed plain char the low octets of continuum and unit must be below 128. */
  lemma EnvelopeRoundTrip(f: Fields, rest: seq<byte>, field: EnvelopeField, signed: bool)
    requires Fit(f)
    ensures EnvelopeHeader(HeaderOf(f) + rest, field, signed) == FieldOf(f, field) <==>
      !(signed && (field == ContinuumNbr || field == UnitField) && FieldOf(f, field) % 256 >= 128)
  {
    HeaderComesFirst(HeaderOf(f), rest, field, signed);
    HeaderRead(f, field, signed);
    if field == ContinuumNbr || field == UnitField {
      PlainCharInjective(FieldOf(f, field), FieldOf(f, field), signed);
    }
  }

  // ---- Petitions ---------------------------------------------------------------------------------

  /** The envelope of a petition (ConstructPetition). */
  function PetitionEnvelope(continuum: int, role: int, unit: int, subject: int, cc: int): (env: seq<byte>)
    ensures |env| == ENVELOPELENGTH
  {
    Header(cc, continuum, unit, role, 0, subject, 0)
  }

  predicate SamePetition(env1: seq<byte>, env2: seq<byte>, signed: bool)
    requires |env1| >= ENVELOPELENGTH && |env2| >= ENVELOPELENGTH
  {
    && EnvelopeHeader(env1, ContinuumNbr, signed) == EnvelopeHeader(env2, ContinuumNbr, signed)
    && EnvelopeHeader(env1, UnitField, signed) == EnvelopeHeader(env2, UnitField, signed)
    && EnvelopeHeader(env1, SourceIDField, signed) == EnvelopeHeader(env2, SourceIDField, signed)
    && EnvelopeHeader(env1, SubjectNbr, signed) == EnvelopeHeader(env2, SubjectNbr, signed)
  }

  predicate PetitionMatchesDomain(env: seq<byte>, continuum: int, role: int, unit: int, subject: int, signed: bool)
    requires |env| >= ENVELOPELENGTH
  {
    && EnvelopeHeader(env, ContinuumNbr, signed) == continuum
    && EnvelopeHeader(env, UnitField, signed) == unit
    && EnvelopeHeader(env, SourceIDField, signed) == role
    && EnvelopeHeader(env, SubjectNbr, signed) == subject
  }

  /** What a petition is about, within what an envelope can hold. */
  predicate InRange(continuum: int, role: int, unit: int, subject: int) {
    0 <= continuum < 0x8000 && 0 <= role < 256 && 0 <= unit < 0x1_0000 && -0x8000 <= subject < 0x8000
  }

  lemma PetitionFields(c: int, r: int, u: int, s: int, cc: int, signed: bool)
    requires InRange(c, r, u, s)
    ensures var env := PetitionEnvelope(c, r, u, s, cc);
      && EnvelopeHeader(env, ContinuumNbr, signed) == High(c) * 256 + PlainChar(signed, Low(c))
      && EnvelopeHeader(env, UnitField, signed) == High(u) * 256 + PlainChar(signed, Low(u))
      && EnvelopeHeader(env, SourceIDField, signed) == r
      && EnvelopeHeader(env, SubjectNbr, signed) == s
  {
    var env := PetitionEnvelope(c, r, u, s, cc);
    assert env[2] == High(c) % 128 && env[3] == Low(c) && env[4] == High(u) && env[5] == Low(u);
    assert env[6] == Low(r) && env[8] == High(s) && env[9] == Low(s);
    S16RoundTrip(s);
    U16RoundTrip(c);
  }

  /** Whether two envelopes are the same petition does not depend on the
      signedness of a plain char: it comes to the same four fields. */
  lemma SamePetitionIsSameDomain(
    c: int, r: int, u: int, s: int, cc: int, c': int, r': int, u': int, s': int, cc': int, signed: bool)
    requires InRange(c, r, u, s) && InRange(c', r', u', s')
    ensures SamePetition(PetitionEnvelope(c, r, u, s, cc), PetitionEnvelope(c', r', u', s', cc'), signed)
      <==> c == c' && r == r' && u == u' && s == s'
  {
    PetitionFields(c, r, u, s, cc, signed);
    PetitionFields(c', r', u', s', cc', signed);
    PlainCharInjective(c, c', signed);
    PlainCharInjective(u, u', signed);
  }

  /** What a continuum or unit number put into an envelope is read back as. */
  function Shown(n: int, signed: bool): int {
    if signed && n % 256 >= 128 then n - 256 else n
  }

  lemma ShownIsRead(n: int, signed: bool)
    requires 0 <= n < 0x1_0000
    ensures High(n) * 256 + PlainChar(signed, Low(n)) == Shown(n, signed)
  {
    U16RoundTrip(n);
  }

  /** A petition matches the domain that its envelope shows: with a signed
      plain char not always the one it is about. */
  lemma MatchesShownDomain(c: int, r: int, u: int, s: int, cc: int, c': int, r': int, u': int, s': int, signed: bool)
    requires InRange(c, r, u, s)
    ensures PetitionMatchesDomain(PetitionEnvelope(c, r, u, s, cc), c', r', u', s', signed)
      <==> Shown(c, signed) == c' && r == r' && Shown(u, signed) == u' && s == s'
  {
    PetitionFields(c, r, u, s, cc, signed);
    ShownIsRead(c, signed);
    ShownIsRead(u, signed);
  }

  /** With a signed plain char, a petition about continuum 640 is taken for one
      about continuum 384, and not for one about 640. */
  lemma TakenForAnother(r: int, u: int, s: int, cc: int)
    requires InRange(640, r, u, s) && u % 256 < 128
    ensures PetitionMatchesDomain(PetitionEnvelope(640, r, u, s, cc), 384, r, u, s, true)
    ensures !PetitionMatchesDomain(PetitionEnvelope(640, r, u, s, cc), 640, r, u, s, true)
  {
    MatchesShownDomain(640, r, u, s, cc, 384, r, u, s, true);
    MatchesShownDomain(640, r, u, s, cc, 640, r, u, s, true);
  }

  /** The petition matches the domain it is about and no other. */
  ghost predicate MatchesOwnOnly(c: int, r: int, u: int, s: int, cc: int, signed: bool) {
    forall c', r', u', s' :: Told(c, r, u, s, cc, c', r', u', s', signed)
  }

  ghost predicate Told(c: int, r: int, u: int, s: int, cc: int, c': int, r': int, u': int, s': int, signed: bool) {
    PetitionMatchesDomain(PetitionEnvelope(c, r, u, s, cc), c', r', u', s', signed) ==
    (c == c' && r == r' && u == u' && s == s')
  }

  /** It does so exactly if a plain char is unsigned or both low octets are
      below 128. */
  lemma MatchesItsDomain(c: int, r: int, u: int, s: int, cc: int, signed: bool)
    requires InRange(c, r, u, s)
    ensures MatchesOwnOnly(c, r, u, s, cc, signed) <==> !signed || (c % 256 < 128 && u % 256 < 128)
  {
    forall c', r', u', s'
      ensures PetitionMatchesDomain(PetitionEnvelope(c, r, u, s, cc), c', r', u', s', signed)
        <==> Shown(c, signed) == c' && r == r' && Shown(u, signed) == u' && s == s' {
      MatchesShownDomain(c, r, u, s, cc, c', r', u', s', signed);
    }
    if MatchesOwnOnly(c, r, u, s, cc, signed) {
      assert Told(c, r, u, s, cc, c, r, u, s, signed);
    }
  }

  // ---- Enclosures --------------------------------------------------------------------------------

  /** The AMS message header that an enclosure starts with. */
  function MessageHeader(continuum: int, unit: int, mod: int, subject: int, contentLength: int, context: seq<byte>,
                         msgType: int, priority: int, flowLabel: byte): (h: seq<byte>)
    requires |context| == 4
    ensures |h| == AMSMSGHEADER
  {
    [msgType % 4 * 16 + priority % 16, flowLabel, High(continuum) % 128, Low(continuum), High(unit), Low(unit),
     Low(mod), 0] + context + [High(subject), Low(subject), High(contentLength), Low(contentLength)]
  }

  method ConstructEnclosure(continuum: int, unit: int, mod: int, subject: int, content: seq<byte>,
                            context: seq<byte>, msgType: int, priority: int, flowLabel: byte)
    returns (text: array<byte>)
    requires |context| == 4
    ensures fresh(text)
    ensures text[..] ==
      MessageHeader(continuum, unit, mod, subject, |content|, context, msgType, priority, flowLabel) + content
  {
    text := new byte[|content| + AMSMSGHEADER](_ => 0);
    WriteMessageHeader(text, continuum, unit, mod, subject, |content|, context, msgType, priority, flowLabel);
    ghost var header := text[..AMSMSGHEADER];
    forall i | 0 <= i < |content| { text[AMSMSGHEADER + i] := content[i]; }
    assert text[..AMSMSGHEADER] == header;
    assert text[AMSMSGHEADER..] == content;
    assert text[..] == text[..AMSMSGHEADER] + text[AMSMSGHEADER..];
  }

  method WriteMessageHeader(text: array<byte>, continuum: int, unit: int, mod: int, subject: int, contentLength: int,
                            context: seq<byte>, msgType: int, priority: int, flowLabel: byte)
    requires |context| == 4 && text.Length >= AMSMSGHEADER
    modifies text
    ensures text[..AMSMSGHEADER] ==
      MessageHeader(continuum, unit, mod, subject, contentLength, context, msgType, priority, flowLabel)
  {
    text[0], text[1] := msgType % 4 * 16 + priority % 16, flowLabel;
    text[2], text[3] := High(continuum) % 128, Low(continuum);
    text[4], text[5] := High(unit), Low(unit);
    text[6], text[7] := Low(mod), 0;
    ghost var first := text[..8];
    forall i | 0 <= i < 4 { text[8 + i] := context[i]; }
    assert text[..12] == first + context;
    text[12], text[13] := High(subject), Low(subject);
    text[14], text[15] := High(contentLength), Low(contentLength);
    assert text[..AMSMSGHEADER] == first + context + text[12..AMSMSGHEADER];
  }

  datatype EnclosureField = ChecksumFlag | EncContinuumNbr | EncUnitNbr | EncModuleNbr | EncSubjectNbr

  function EnclosureHeader(enc: seq<byte>, field: EnclosureField): (num: int)
    requires |enc| >= AMSMSGHEADER
  {
    match field
    case ChecksumFlag => enc[2] / 128 * 128
    case EncContinuumNbr => enc[2] % 128 * 256 + enc[3]
    case EncUnitNbr => enc[4] * 256 + enc[5]
    case EncModuleNbr => enc[6]
    case EncSubjectNbr => S16(enc[12], enc[13])
  }

  lemma EnclosureRoundTrip(continuum: int, unit: int, mod: int, subject: int, contentLength: int, context: seq<byte>,
                           msgType: int, priority: int, flowLabel: byte, content: seq<byte>)
    requires |context| == 4 && 0 <= continuum < 0x8000 && 0 <= unit < 0x1_0000 && 0 <= mod < 256
    requires -0x8000 <= subject < 0x8000
    ensures var enc :=
        MessageHeader(continuum, unit, mod, subject, contentLength, context, msgType, priority, flowLabel) + content;
      && EnclosureHeader(enc, ChecksumFlag) == 0
      && EnclosureHeader(enc, EncContinuumNbr) == continuum && EnclosureHeader(enc, EncUnitNbr) == unit
      && EnclosureHeader(enc, EncModuleNbr) == mod && EnclosureHeader(enc, EncSubjectNbr) == subject
  {
    var h := MessageHeader(continuum, unit, mod, subject, contentLength, context, msgType, priority, flowLabel);
    assert forall i :: 0 <= i < AMSMSGHEADER ==> (h + content)[i] == h[i];
    S16RoundTrip(subject);
    U16RoundTrip(continuum);
    U16RoundTrip(unit);
  }

  /** EnvelopeContent, when the length has to be read from the envelope. */
  function EnvelopeContent(rpdu: seq<byte>, signed: bool): (enc: seq<byte>)
    requires |rpdu| >= ENVELOPELENGTH
  {
    if EnvelopeHeader(rpdu, EnclosureLength, signed) > 0 then rpdu[ENVELOPELENGTH..] else []
  }

  // ---- Satisfying a petition -----------------------------------------------------------------------

  /** ams_subunit_of, for numbers read from octets. */
  predicate SubunitOf(names: Names, arg: int, ref: int) {
    arg >= 0 && ref >= 0 && Within(names, arg, ref)
  }

  predicate MessageSatisfiesPetition(names: Names, env: seq<byte>, continuum: int, unit: int, role: int,
                                     subject: int, signed: bool)
    requires |env| >= ENVELOPELENGTH
  {
    && subject == EnvelopeHeader(env, SubjectNbr, signed)
    && (var petCont := EnvelopeHeader(env, ContinuumNbr, signed); petCont == 0 || petCont == continuum)
    && (var petUnit := EnvelopeHeader(env, UnitField, signed); petUnit == 0 || SubunitOf(names, unit, petUnit))
    && (var petRole := EnvelopeHeader(env, SourceIDField, signed); petRole == 0 || petRole == role)
  }

  predicate EnclosureSatisfiesPetition(names: Names, env: seq<byte>, rpdu: seq<byte>, signed: bool)
    requires |env| >= ENVELOPELENGTH && |rpdu| >= ENVELOPELENGTH
    requires EnvelopeContent(rpdu, signed) == [] || |rpdu| >= ENVELOPELENGTH + AMSMSGHEADER
  {
    var enc := EnvelopeContent(rpdu, signed);
    && enc != []
    && EnclosureHeader(enc, EncSubjectNbr) == EnvelopeHeader(env, SubjectNbr, signed)
    && (var petCont := EnvelopeHeader(env, ContinuumNbr, signed);
        petCont == 0 || petCont == EnclosureHeader(enc, EncContinuumNbr))
    && (var petUnit := EnvelopeHeader(env, UnitField, signed);
        petUnit == 0 || SubunitOf(names, EnclosureHeader(enc, EncUnitNbr), petUnit))
    && (var petRole := EnvelopeHeader(env, SourceIDField, signed);
        petRole == 0 || petRole == EnvelopeHeader(rpdu, SourceIDField, signed))
  }

  /** The RPDU in which a gateway relays a message published in its continuum. */
  function PublishedRpdu(to: int, role: int, continuum: int, unit: int, mod: int, subject: int, content: seq<byte>,
                         context: seq<byte>, msgType: int, priority: int, flowLabel: byte): (rpdu: seq<byte>)
    requires |context| == 4
    ensures |rpdu| == ENVELOPELENGTH + AMSMSGHEADER + |content|
  {
    var enc :=
      MessageHeader(continuum, unit, mod, subject, |content|, context, msgType, priority, flowLabel) + content;
    Header(4, to, 0, role, 0, subject, |enc|) + enc
  }

  /** Origin and relay agree on whether a message satisfies a petition, unless
      the sender's role is unknown, the petition is about role 255, and
      everything else about the message satisfies it. */
  lemma OriginAndRelayAgree(names: Names, env: seq<byte>, to: int, role: int, continuum: int, unit: int, mod: int,
                            subject: int, content: seq<byte>, context: seq<byte>, msgType: int, priority: int,
                            flowLabel: byte, signed: bool)
    requires |env| >= ENVELOPELENGTH && |context| == 4 && |content| <= MAX_AMS_CONTENT
    requires -1 <= role < 256 && 0 <= continuum < 0x8000 && 0 <= unit < 0x1_0000 && 0 <= mod < 256
    requires -0x8000 <= subject < 0x8000
    ensures
      var rpdu :=
        PublishedRpdu(to, role, continuum, unit, mod, subject, content, context, msgType, priority, flowLabel);
      (EnclosureSatisfiesPetition(names, env, rpdu, signed) ==
       MessageSatisfiesPetition(names, env, continuum, unit, role, subject, signed)) ==
      !(&& role == -1 && EnvelopeHeader(env, SourceIDField, signed) == 255
        && MessageSatisfiesPetition(names, env, continuum, unit, 255, subject, signed))
  {
    var enc :=
      MessageHeader(continuum, unit, mod, subject, |content|, context, msgType, priority, flowLabel) + content;
    var rpdu :=
      PublishedRpdu(to, role, continuum, unit, mod, subject, content, context, msgType, priority, flowLabel);
    EnclosureRoundTrip(continuum, unit, mod, subject, |content|, context, msgType, priority, flowLabel, content);
    RpduFields(to, role, subject, enc, signed);
    assert EnvelopeContent(rpdu, signed) == enc;
  }

  lemma RpduFields(to: int, role: int, subject: int, enc: seq<byte>, signed: bool)
    requires 0 < |enc| < 0x1_0000 && -1 <= role < 256
    ensures var rpdu := Header(4, to, 0, role, 0, subject, |enc|) + enc;
      && rpdu[ENVELOPELENGTH..] == enc && EnvelopeContent(rpdu, signed) == enc
      && EnvelopeHeader(rpdu, SourceIDField, signed) == if role == -1 then 255 else role
  {
    var h := Header(4, to, 0, role, 0, subject, |enc|);
    HeaderComesFirst(h, enc, SourceIDField, signed);
    HeaderComesFirst(h, enc, EnclosureLength, signed);
    U16RoundTrip(|enc|);
    assert (h + enc)[ENVELOPELENGTH..] == enc;
  }
}
