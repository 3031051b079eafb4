/** Octets in their places: messages of known contents, written out. The round
    trips elsewhere say that what is written is read back; these say what is
    written. */
module Samples {
  import opened Lists
  import opened Octets
  import Envelopes
  import Resync
  import Codec
  import Framing

  /** Numbers go most significant octet first, negative ones in two's complement. */
  lemma NetworkOrder()
    ensures High(0x1234) == 0x12 && Low(0x1234) == 0x34 && U16(0x12, 0x34) == 0x1234
    ensures High(-2) == 0xFF && Low(-2) == 0xFE && S16(0xFF, 0xFE) == -2 && S16(0x12, 0x34) == 0x1234
  {
  }

  /** A petition assertion (2) for continuum 0x0304, unit 0x0506, role 7 and
      subject 0x0809. */
  lemma PetitionSample()
    ensures Envelopes.PetitionEnvelope(0x0304, 7, 0x0506, 0x0809, 2) == [2, 0, 3, 4, 5, 6, 7, 0, 8, 9, 0, 0]
  {
  }

  /** The header of a RAMS envelope with everything in it. */
  lemma EnvelopeSample()
    ensures Envelopes.Header(6, 0x0304, 0x0506, 7, 8, 0x090A, 0x0B0C) == [6, 0, 3, 4, 5, 6, 7, 8, 9, 10, 11, 12]
  {
  }

  /** Of the control code four bits are written; what stands beside a number in
      its octets is not read. */
  lemma EnvelopeMasks(signed: bool)
    ensures Envelopes.Header(0x16, 0, 0, 0, 0, 0, 0)[0] == 6 && Envelopes.Header(0, 0x8304, 0, 0, 0, 0, 0)[2] == 3
    ensures var env: seq<byte> := [0xF6, 0, 0x83, 4, 0x85, 6, 7, 8, 9, 10, 11, 12];
      && Envelopes.EnvelopeHeader(env, Envelopes.ControlCode, signed) == 6
      && Envelopes.EnvelopeHeader(env, Envelopes.ContinuumNbr, signed) == 0x0304
      && Envelopes.EnvelopeHeader(env, Envelopes.UnitField, signed) == 0x8506
      && Envelopes.EnvelopeHeader(env, Envelopes.SourceIDField, signed) == 7
      && Envelopes.EnvelopeHeader(env, Envelopes.DestIDField, signed) == 8
      && Envelopes.EnvelopeHeader(env, Envelopes.SubjectNbr, signed) == 0x090A
      && Envelopes.EnvelopeHeader(env, Envelopes.EnclosureLength, signed) == 0x0B0C
  {
  }

  /** A published RPDU (4) from role 7, addressed to all units and modules. */
  lemma PublishedSample()
    ensures Envelopes.PublishedRpdu(3, 7, 1, 2, 5, 6, [9], [0, 0, 0, 0], 1, 8, 2)[..12] ==
      [4, 0, 0, 3, 0, 0, 7, 0, 0, 6, 0, 17]
  {
  }

  /** The AMS message header in an enclosure: type 1, priority 8, flow label 2;
      continuum, unit, module; context; subject and length. */
  lemma EnclosureSample()
    ensures Envelopes.MessageHeader(0x0304, 0x0506, 7, 0x0809, 0x0A0B, [12, 13, 14, 15], 1, 8, 2) ==
      [0x18, 2, 3, 4, 5, 6, 7, 0, 12, 13, 14, 15, 8, 9, 10, 11]
    ensures Envelopes.MessageHeader(0, 0, 0, 0, 0, [0, 0, 0, 0], 5, 24, 0)[0] == 0x18
    ensures var enc: seq<byte> := [0x98, 2, 0x83, 4, 5, 6, 7, 0, 12, 13, 14, 15, 8, 9, 10, 11];
      && Envelopes.EnclosureHeader(enc, Envelopes.ChecksumFlag) == 0x80
      && Envelopes.EnclosureHeader(enc, Envelopes.EncContinuumNbr) == 0x0304
      && Envelopes.EnclosureHeader(enc, Envelopes.EncUnitNbr) == 0x0506
      && Envelopes.EnclosureHeader(enc, Envelopes.EncModuleNbr) == 7
      && Envelopes.EnclosureHeader(enc, Envelopes.EncSubjectNbr) == 0x0809
  {
  }

  /** An assertion about subject 0x0102 in continuum 0x0304 and unit 0x0506, for
      role 7, vector 8, priority 9 and flow label 10. */
  lemma AssertionSample()
    ensures Codec.AssertionBytes(Resync.Assertion(0x0102, 7, 0x0304, 0x0506, 8, 9, 10)) ==
      [1, 2, 3, 4, 5, 6, 7, 0x89, 10]
    ensures Codec.ReadAssertion([1, 2, 3, 4, 5, 6, 7, 0x89, 10]) ==
      Resync.Assertion(0x0102, 7, 0x0304, 0x0506, 8, 9, 10)
  {
  }

  function OneAssertion(): Resync.Assertion {
    Resync.Assertion(0x0102, 7, 0x0304, 0x0506, 8, 9, 10)
  }

  /** Subscriptions first, then invitations, each behind its count. */
  lemma DeclarationSample()
    ensures Codec.DeclarationBytes(Resync.Declaration([OneAssertion()], [])) ==
      [0, 1, 1, 2, 3, 4, 5, 6, 7, 0x89, 10, 0, 0]
  {
    AssertionSample();
    var list := [OneAssertion()];
    assert list[1..] == [];
    assert Codec.AssertionsBytes(list) == Codec.AssertionBytes(list[0]) + [];
  }

  /** A module at endpoint "e" with one delivery vector, number 3, that has the
      interfaces t=u and v=w. */
  function OneContact(): (c: Codec.Contact) {
    Codec.Contact([101], [Codec.Vector(3, [Codec.Interface([116], [117]), Codec.Interface([118], [119])])])
  }

  lemma InterfacesSample()
    ensures Codec.InterfacesBytes([Codec.Interface([116], [117]), Codec.Interface([118], [119])]) ==
      [116, 61, 117, 44, 118, 61, 119, 0]
  {
    var list := [Codec.Interface([116], [117]), Codec.Interface([118], [119])];
    assert list[1..] == [list[1]] && [list[1]][1..] == [];
    assert Codec.InterfacesBytes([list[1]]) == [118, 61, 119, 0];
  }

  lemma ContactSample()
    ensures Codec.ContactBytes(OneContact()) == [101, 0, 1, 0x32, 116, 61, 117, 44, 118, 61, 119, 0]
  {
    InterfacesSample();
    var c := OneContact();
    assert c.vectors[1..] == [];
    assert Codec.VectorBytes(c.vectors[0]) == [0x32, 116, 61, 117, 44, 118, 61, 119, 0];
    assert Codec.VectorsBytes(c.vectors) == Codec.VectorBytes(c.vectors[0]) + [];
  }

  /** A module's reconnect supplement: unit, module, role, contact summary,
      declaration, and the modules that it knows of. */
  lemma SupplementSample()
    ensures Codec.Supplement(0x0102, 3, 4, Codec.Contact([101], []), Resync.Declaration([], []), [5, 6]) ==
      [1, 2, 3, 4, 101, 0, 0, 0, 0, 0, 0, 2, 5, 6]
  {
    assert Codec.ContactBytes(Codec.Contact([101], [])) == [101, 0, 0];
    assert Codec.DeclarationBytes(Resync.Declaration([], [])) == [0, 0, 0, 0];
  }

  /** Words are summed, the last one padded, modulo 0x10000. */
  lemma ChecksumSample()
    ensures Framing.Checksum([0xFF, 0xFE, 0, 3, 1]) == 0x0101 && Framing.Checksum([1, 2]) == 0x0102
  {
    var two: seq<byte> := [1, 2];
    assert two[2..] == [];
    var s: seq<byte> := [0xFF, 0xFE, 0, 3, 1];
    assert s[2..] == [0, 3, 1] && s[2..][2..] == [1];
    assert Framing.WordSum([1]) == 256;
    assert Framing.WordSum([0, 3, 1]) == 3 + 256;
    assert Framing.WordSum(s) == 0xFFFE + 3 + 256;
  }

  /** A MAMS message of type 5 with memo 7, from role 4 in unit 0x0203 of
      venture 1, with the supplement 9, unsigned, in front of its checksum. */
  lemma MessageSample()
    ensures Framing.Body(Framing.MamsMsg(5, Framing.Origin(1, 0x0203, 4), [0, 0, 0, 7], [9]), [], [10, 11, 12, 13]) ==
      [0x25, 1, 2, 3, 4, 0, 0, 1, 0, 0, 0, 7, 28, 10, 11, 12, 13, 9]
  {
    var m := Framing.MamsMsg(5, Framing.Origin(1, 0x0203, 4), [0, 0, 0, 7], [9]);
    assert Framing.Front(m, 0) == [0x25, 1, 2, 3, 4, 0, 0, 1];
  }

  /** A signed one carries a nonce, twice, and the name. */
  lemma SignedSample()
    ensures Framing.Authenticator(Framing.Parms([65, 66], true, true), [1, 2, 3, 4]) == [1, 2, 3, 4, 1, 2, 3, 4, 65, 66]
    ensures Framing.SignedBy([65, 66], [1, 2, 3, 4, 1, 2, 3, 4, 65, 66])
    ensures !Framing.SignedBy([65, 66], [1, 2, 3, 4, 1, 2, 3, 5, 65, 66])
    ensures !Framing.SignedBy([65, 66], [1, 2, 3, 4, 1, 2, 3, 4, 77, 66])
  {
    var n: seq<byte> := [1, 2, 3, 4];
    assert Framing.IsSigned([65, 66], n, n + n + [65, 66]);
    forall nonce, a | Framing.IsSigned([65, 66], nonce, a)
      ensures a[3] == a[7] && a[8] == 65 {
    }
  }
}
