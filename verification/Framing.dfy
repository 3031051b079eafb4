/** MAMS messages as octets, with their authenticator and checksum. */
module Framing {
  import opened Lists
  import opened Octets
  import opened Cursors

  // ---- The checksum ----------------------------------------------------------------------------

  /** The sum of the 16-bit words of s, the last one padded with zero. */
  function WordSum(s: seq<byte>): (n: nat) {
    if s == [] then 0
    else if |s| == 1 then s[0] * 256
    else s[0] * 256 + s[1] + WordSum(s[2..])
  }

  function Checksum(s: seq<byte>): (n: nat)
    ensures n < 0x1_0000
  {
    WordSum(s) % 0x1_0000
  }

  lemma MaskWrap(n: nat)
    ensures n % 0x1_0000_0000 % 0x1_0000 == n % 0x1_0000
  {
    var q := n / 0x1_0000_0000;
    MaskMultiple(n % 0x1_0000_0000, q * 0x1_0000);
  }

  lemma MaskMultiple(n: nat, k: nat)
    ensures (n + k * 0x1_0000) % 0x1_0000 == n % 0x1_0000
  {
  }

  /** computeAmsChecksum: a 32-bit sum that may overflow. */
  method ComputeAmsChecksum(s: seq<byte>) returns (checksum: nat)
    ensures checksum == Checksum(s)
  {
    var sum: nat, k: nat := 0, 0;
    ghost var total: nat := 0;
    assert s[0..] == s;
    while k < |s|
      invariant k <= |s| && total + WordSum(s[k..]) == WordSum(s)
      invariant sum < 0x1_0000_0000 && sum == total % 0x1_0000_0000
    {
      var addend: nat := U16(s[k], 0);
      ghost var rest := s[k..];
      if k + 1 < |s| {
        addend := U16(s[k], s[k + 1]);
        assert rest[2..] == s[k+2..];
        k := k + 2;
      } else {
        k := k + 1;
        assert s[k..] == [];
      }
      WrapAgain(total, addend);
      sum := (sum + addend) % 0x1_0000_0000;
      total := total + addend;
    }
    MaskWrap(total);
    checksum := sum % 0x1_0000;
  }

  lemma WrapAgain(a: nat, b: nat)
    ensures (a % 0x1_0000_0000 + b) % 0x1_0000_0000 == (a + b) % 0x1_0000_0000
  {
  }

  /** One octet changed changes the sum by as much, or 256 times as much. */
  lemma {:induction false} SumOfDamaged(s: seq<byte>, i: nat, b: byte)
    requires i < |s|
    ensures WordSum(s[i := b]) == WordSum(s) + (b - s[i]) * (if i % 2 == 0 then 256 else 1)
  {
    if i >= 2 {
      SumOfDamaged(s[2..], i - 2, b);
      assert s[i := b][2..] == s[2..][i - 2 := b];
    } else if |s| > 1 {
      assert s[i := b][2..] == s[2..];
    }
  }

  lemma DamageShows(s: seq<byte>, i: nat, b: byte)
    requires i < |s| && b != s[i]
    ensures Checksum(s[i := b]) != Checksum(s)
  {
    SumOfDamaged(s, i, b);
    var d := (b - s[i]) * if i % 2 == 0 then 256 else 1;
    assert d != 0 && -0x1_0000 < d < 0x1_0000;
    NotCongruent(WordSum(s), d);
  }

  lemma NotCongruent(n: nat, d: int)
    requires d != 0 && -0x1_0000 < d < 0x1_0000 && n + d >= 0
    ensures (n + d) % 0x1_0000 != n % 0x1_0000
  {
  }

  // ---- Messages --------------------------------------------------------------------------------

  datatype Origin = Origin(venture: nat, unit: nat, role: nat)

  datatype MamsMsg = MamsMsg(pduType: nat, origin: Origin, memo: seq<byte>, supplement: seq<byte>)

  /** What is known of a sender: the name it is authenticated by, whether it
      has a key to sign with, and whether there is a key to verify with. */
  datatype Parms = Parms(name: seq<byte>, signs: bool, verifies: bool)

  const AUTHENTICAT_LEN := 105

  /** The longest name that fits behind two nonces and before a terminator. */
  const LONGEST_SIGNER := AUTHENTICAT_LEN - 9

  /** What a message can hold. */
  predicate Fit(m: MamsMsg) {
    && m.pduType < 32 && m.origin.venture < 256 && m.origin.unit < 0x1_0000 && m.origin.role < 256
    && |m.memo| == 4 && |m.supplement| < 0x1_0000
  }

  /** With the identity cipher: a nonce in clear, the nonce and the name enciphered. */
  function Authenticator(p: Parms, nonce: seq<byte>): (s: seq<byte>) {
    if p.signs then nonce + nonce + p.name else []
  }

  /** The octets in front of the memo. */
  function Front(m: MamsMsg, authLength: nat): (s: seq<byte>)
    ensures |s| == 8
  {
    [Low(0x20 + m.pduType % 32), Low(m.origin.venture), High(m.origin.unit), Low(m.origin.unit), Low(m.origin.role),
     Low(authLength), High(|m.supplement|), Low(|m.supplement|)]
  }

  /** Fixed header, time tag. */
  function Head(m: MamsMsg, authLength: nat, time: seq<byte>): (s: seq<byte>)
    requires |m.memo| == 4 && |time| == 4
    ensures |s| == 17
  {
    Front(m, authLength) + (m.memo + ([28] + time))
  }

  function Body(m: MamsMsg, auth: seq<byte>, time: seq<byte>): (s: seq<byte>)
    requires |m.memo| == 4 && |time| == 4
    ensures |s| == 17 + |auth| + |m.supplement|
  {
    Head(m, |auth|, time) + (auth + m.supplement)
  }

  function WithChecksum(body: seq<byte>): (s: seq<byte>)
    ensures |s| == |body| + 2
  {
    body + [High(Checksum(body)), Low(Checksum(body))]
  }

  datatype Sent = Message(text: seq<byte>) | NotSent | BadName

  /** sendMamsMsg, given a nonce and the time. */
  function Send(mib: map<Origin, Parms>, m: MamsMsg, nonce: seq<byte>, time: seq<byte>): (r: Sent)
    requires |m.memo| == 4 && |nonce| == 4 && |time| == 4
  {
    if m.origin !in mib then NotSent
    else
      var p := mib[m.origin];
      if p.signs && (p.name == [] || |p.name| > LONGEST_SIGNER) then BadName
      else Message(WithChecksum(Body(m, Authenticator(p, nonce), time)))
  }

  /** A message goes out exactly from a known origin that, if it signs, has a
      name that fits. */
  lemma SentExactly(mib: map<Origin, Parms>, m: MamsMsg, nonce: seq<byte>, time: seq<byte>)
    requires |m.memo| == 4 && |nonce| == 4 && |time| == 4
    ensures Send(mib, m, nonce, time).Message? <==>
      m.origin in mib && (mib[m.origin].signs ==> 1 <= |mib[m.origin].name| <= 96)
    ensures Send(mib, m, nonce, time).NotSent? <==> m.origin !in mib
  {
  }

  datatype Received = Incomplete | UnknownTimeCode | Truncated | ChecksumFailed | LengthError
                    | NotDelivered | BadAuthenticator | Delivered(m: MamsMsg)

  /** Where the authenticator starts, by the time tag's preamble. */
  function TagEnd(preamble: byte): (n: nat) {
    13 + preamble / 4 % 4 + 1 + preamble % 4
  }

  function ReadOrigin(text: seq<byte>): Origin
    requires |text| >= 14
  {
    Origin(text[1], U16(text[2], text[3]), text[4])
  }

  /** The authenticator's check of a message whose length is right. */
  function Authentic(mib: map<Origin, Parms>, text: seq<byte>, start: nat): (ok: bool)
    requires |text| >= 14 && ReadOrigin(text) in mib && start + text[5] <= |text|
  {
    var p, auth := mib[ReadOrigin(text)], text[start..start + text[5]];
    p.verifies ==>
      0 < |p.name| <= LONGEST_SIGNER && |auth| == |p.name| + 8 && auth[..4] == auth[4..8] && auth[8..] == p.name
  }

  /** enqueueMamsMsg; the value of the time tag is left out. */
  function Receive(mib: map<Origin, Parms>, text: seq<byte>): (r: Received) {
    if |text| < 14 then Incomplete
    else if text[12] / 16 % 8 != 1 then UnknownTimeCode
    else
      var start := TagEnd(text[12]);
      if |text| < start then Truncated
      else if text[0] / 32 % 2 == 1 && |text| < start + 2 then Truncated
      else if text[0] / 32 % 2 == 1
           && U16(text[|text|-2], text[|text|-1]) != Checksum(text[..|text|-2]) then ChecksumFailed
      else
        var length := U16(text[6], text[7]);
        if |text| != start + (if text[0] / 32 % 2 == 1 then 2 else 0) + text[5] + length then LengthError
        else if ReadOrigin(text) !in mib then NotDelivered
        else if !Authentic(mib, text, start) then BadAuthenticator
        else
          Delivered(MamsMsg(text[0] % 32, ReadOrigin(text), text[8..12],
                            text[start + text[5]..start + text[5] + length]))
  }

  // ---- Round trip ------------------------------------------------------------------------------

  /** The octets of a message whose parts are given. */
  lemma HeadOctets(m: MamsMsg, n: nat, time: seq<byte>, rest: seq<byte>)
    requires Fit(m) && |time| == 4 && n < 256
    ensures
      var text := Head(m, n, time) + rest;
      && text[0] == 0x20 + m.pduType && text[1] == m.origin.venture
      && U16(text[2], text[3]) == m.origin.unit && text[4] == m.origin.role
      && text[5] == n && U16(text[6], text[7]) == |m.supplement| && text[8..12] == m.memo && text[12] == 28
      && text[17..] == rest
  {
    FrontOctets(m, n);
    TextParts(Front(m, n), m.memo, [28] + time, rest);
  }

  lemma FrontOctets(m: MamsMsg, n: nat)
    requires Fit(m) && n < 256
    ensures
      var s := Front(m, n);
      && s[0] == 0x20 + m.pduType && s[1] == m.origin.venture && U16(s[2], s[3]) == m.origin.unit
      && s[4] == m.origin.role && s[5] == n && U16(s[6], s[7]) == |m.supplement|
  {
    U16RoundTrip(m.origin.unit);
    U16RoundTrip(|m.supplement|);
    Divided(0x20 + m.pduType, 0, 0x20 + m.pduType);
    Divided(m.origin.venture, 0, m.origin.venture);
    Divided(m.origin.role, 0, m.origin.role);
    Divided(n, 0, n);
    FrontAt(m, n);
  }

  lemma FrontAt(m: MamsMsg, n: nat)
    requires m.pduType < 32
    ensures
      var s := Front(m, n);
      && s[0] == Low(0x20 + m.pduType) && s[1] == Low(m.origin.venture) && s[2] == High(m.origin.unit)
      && s[3] == Low(m.origin.unit) && s[4] == Low(m.origin.role) && s[5] == Low(n)
      && s[6] == High(|m.supplement|) && s[7] == Low(|m.supplement|)
  {
  }

  lemma TextParts(first: seq<byte>, memo: seq<byte>, tag: seq<byte>, rest: seq<byte>)
    requires |first| == 8 && |memo| == 4 && |tag| == 5
    ensures
      var text := first + (memo + tag) + rest;
      && (forall i :: 0 <= i < 8 ==> text[i] == first[i])
      && text[8..12] == memo && text[12] == tag[0] && text[17..] == rest
  {
  }

  /** The text of a message carries its parts. */
  ghost predicate Carries(text: seq<byte>, m: MamsMsg, auth: seq<byte>) {
    && |m.memo| == 4 && |text| == 19 + |auth| + |m.supplement|
    && text[0] == 0x20 + m.pduType && m.pduType < 32 && ReadOrigin(text) == m.origin
    && text[5] == |auth| && U16(text[6], text[7]) == |m.supplement| && text[8..12] == m.memo && text[12] == 28
    && text[17..17 + |auth|] == auth && text[17 + |auth|..17 + |auth| + |m.supplement|] == m.supplement
    && U16(text[|text|-2], text[|text|-1]) == Checksum(text[..|text|-2])
  }

  lemma SentCarries(m: MamsMsg, auth: seq<byte>, time: seq<byte>)
    requires Fit(m) && |time| == 4 && |auth| < 256
    ensures Carries(WithChecksum(Body(m, auth, time)), m, auth)
  {
    var body := Body(m, auth, time);
    var n := Checksum(body);
    var sum := [High(n), Low(n)];
    var rest := auth + m.supplement + sum;
    BodyThenSum(Head(m, |auth|, time), auth, m.supplement, sum);
    HeadOctets(m, |auth|, time, rest);
    U16RoundTrip(n);
    var text := Head(m, |auth|, time) + rest;
    RestParts(auth, m.supplement, sum);
    assert text[17..17 + |auth|] == rest[..|auth|];
    assert text[17 + |auth|..17 + |auth| + |m.supplement|] == rest[|auth|..|auth| + |m.supplement|];
    assert text[..|text|-2] == body;
  }

  lemma BodyThenSum(head: seq<byte>, auth: seq<byte>, supplement: seq<byte>, sum: seq<byte>)
    ensures head + (auth + supplement) + sum == head + (auth + supplement + sum)
  {
  }

  lemma RestParts(a: seq<byte>, b: seq<byte>, c: seq<byte>)
    ensures (a + b + c)[..|a|] == a && (a + b + c)[|a|..|a| + |b|] == b
  {
  }

  lemma CarriedIsReceived(mib: map<Origin, Parms>, text: seq<byte>, m: MamsMsg, auth: seq<byte>)
    requires Carries(text, m, auth) && m.origin in mib
    ensures Receive(mib, text) ==
      if Authentic(mib, text, 17) then Delivered(m) else BadAuthenticator
  {
    FirstRead(0, true, m.pduType);
    assert TagEnd(28) == 17;
    var n := 17 + |auth| + |m.supplement|;
    assert |text| == n + 2 && text[17 + text[5]..17 + text[5] + U16(text[6], text[7])] == m.supplement;
  }

  /** What is sent is delivered with the same contents, exactly if the sender
      signs or the receiver does not verify. */
  lemma FramingRoundTrip(mib: map<Origin, Parms>, m: MamsMsg, nonce: seq<byte>, time: seq<byte>)
    requires Fit(m) && |nonce| == 4 && |time| == 4 && Send(mib, m, nonce, time).Message?
    ensures Receive(mib, Send(mib, m, nonce, time).text) ==
      if mib[m.origin].signs || !mib[m.origin].verifies then Delivered(m) else BadAuthenticator
  {
    var p := mib[m.origin];
    var auth := Authenticator(p, nonce);
    SentCarries(m, auth, time);
    CarriedIsReceived(mib, Send(mib, m, nonce, time).text, m, auth);
    SignedIsAuthentic(mib, Send(mib, m, nonce, time).text, m, nonce);
  }

  lemma SignedIsAuthentic(mib: map<Origin, Parms>, text: seq<byte>, m: MamsMsg, nonce: seq<byte>)
    requires m.origin in mib && |nonce| == 4 && Carries(text, m, Authenticator(mib[m.origin], nonce))
    requires var p := mib[m.origin]; p.signs ==> 0 < |p.name| <= LONGEST_SIGNER
    ensures Authentic(mib, text, 17) <==> mib[m.origin].signs || !mib[m.origin].verifies
  {
    var p := mib[m.origin];
    var auth := Authenticator(p, nonce);
    assert text[17..17 + text[5]] == auth;
    if p.signs {
      assert auth[..4] == nonce && auth[4..8] == nonce && auth[8..] == p.name;
    }
  }

  // ---- What is delivered ---------------------------------------------------------------------------

  /** The authenticator is some nonce, twice, and the name. */
  ghost predicate SignedBy(name: seq<byte>, auth: seq<byte>) {
    0 < |name| <= LONGEST_SIGNER && exists nonce :: IsSigned(name, nonce, auth)
  }

  ghost predicate IsSigned(name: seq<byte>, nonce: seq<byte>, auth: seq<byte>) {
    |nonce| == 4 && auth == nonce + nonce + name
  }

  lemma AuthenticExactly(mib: map<Origin, Parms>, text: seq<byte>, start: nat)
    requires |text| >= 14 && ReadOrigin(text) in mib && start + text[5] <= |text|
    ensures var p := mib[ReadOrigin(text)];
      Authentic(mib, text, start) <==> (p.verifies ==> SignedBy(p.name, text[start..start + text[5]]))
  {
    var p, auth := mib[ReadOrigin(text)], text[start..start + text[5]];
    if |auth| == |p.name| + 8 && auth[..4] == auth[4..8] && auth[8..] == p.name {
      assert auth == auth[..4] + auth[4..8] + auth[8..];
      assert IsSigned(p.name, auth[..4], auth);
    }
    if nonce :| IsSigned(p.name, nonce, auth) {
      assert auth[..4] == nonce && auth[4..8] == nonce && auth[8..] == p.name;
    }
  }

  /** A receiver that verifies delivers a message exactly if it is signed by
      the name registered for its origin. */
  lemma DeliveredIfSigned(mib: map<Origin, Parms>, text: seq<byte>, m: MamsMsg, auth: seq<byte>)
    requires Carries(text, m, auth) && m.origin in mib
    ensures var p := mib[m.origin];
      Receive(mib, text) == if p.verifies ==> SignedBy(p.name, auth) then Delivered(m) else BadAuthenticator
  {
    CarriedIsReceived(mib, text, m, auth);
    AuthenticExactly(mib, text, 17);
    assert text[17..17 + text[5]] == auth;
  }

  /** Everything in a text: with any version, with or without a checksum, and
      with a time tag of any length. */
  datatype Frame = Frame(version: nat, flagged: bool, m: MamsMsg, preamble: byte, tag: seq<byte>, auth: seq<byte>)

  /** A time tag of known code, and parts that fit. */
  ghost predicate WellFormed(f: Frame) {
    && f.version < 4 && Fit(f.m) && |f.auth| < 256 && f.preamble / 16 % 8 == 1
    && |f.tag| == f.preamble / 4 % 4 + 1 + f.preamble % 4
  }

  function FirstOctet(f: Frame): (n: nat) {
    f.version * 64 + (if f.flagged then 32 else 0) + f.m.pduType
  }

  function FrameFront(f: Frame): (s: seq<byte>)
    ensures |s| == 8
  {
    [Low(FirstOctet(f)), Low(f.m.origin.venture), High(f.m.origin.unit), Low(f.m.origin.unit), Low(f.m.origin.role),
     Low(|f.auth|), High(|f.m.supplement|), Low(|f.m.supplement|)]
  }

  function FrameBody(f: Frame): (s: seq<byte>) {
    FrameFront(f) + f.m.memo + [f.preamble] + f.tag + f.auth + f.m.supplement
  }

  function FrameText(f: Frame): (text: seq<byte>) {
    if f.flagged then WithChecksum(FrameBody(f)) else FrameBody(f)
  }

  /** A message is delivered exactly if the text is a well-formed frame of it
      from an origin that is known and, if the receiver verifies, signed. */
  lemma DeliveredExactly(mib: map<Origin, Parms>, text: seq<byte>, m: MamsMsg)
    ensures Receive(mib, text) == Delivered(m) <==> exists f :: Acceptable(mib, text, m, f)
  {
    if Receive(mib, text) == Delivered(m) {
      Reframed(mib, text, m);
    }
    if f :| Acceptable(mib, text, m, f) {
      FrameDelivered(mib, f);
    }
  }

  ghost predicate Acceptable(mib: map<Origin, Parms>, text: seq<byte>, m: MamsMsg, f: Frame) {
    && f.m == m && WellFormed(f) && FrameText(f) == text && m.origin in mib
    && (mib[m.origin].verifies ==> SignedBy(mib[m.origin].name, f.auth))
  }

  /** The frame that a text shows. */
  function Shown(text: seq<byte>): (f: Frame)
    requires |text| >= 14 && TagEnd(text[12]) + text[5] + U16(text[6], text[7]) <= |text|
    ensures |f.m.memo| == 4
  {
    var start, length := TagEnd(text[12]), U16(text[6], text[7]);
    Frame(text[0] / 64, text[0] / 32 % 2 == 1,
          MamsMsg(text[0] % 32, ReadOrigin(text), text[8..12], text[start + text[5]..start + text[5] + length]),
          text[12], text[13..start], text[start..start + text[5]])
  }

  /** The text is as long as it says, and its checksum is right, if there is one. */
  ghost predicate Whole(text: seq<byte>) {
    && |text| >= 14
    && var n := TagEnd(text[12]) + text[5] + U16(text[6], text[7]);
       if text[0] / 32 % 2 == 1 then |text| == n + 2 && U16(text[n], text[n + 1]) == Checksum(text[..n])
       else |text| == n
  }

  lemma Passed(mib: map<Origin, Parms>, text: seq<byte>, m: MamsMsg)
    requires Receive(mib, text) == Delivered(m)
    ensures Whole(text) && text[12] / 16 % 8 == 1 && Shown(text).m == m && m.origin in mib
    ensures Authentic(mib, text, TagEnd(text[12]))
  {
  }

  lemma Reframed(mib: map<Origin, Parms>, text: seq<byte>, m: MamsMsg)
    requires Receive(mib, text) == Delivered(m)
    ensures |text| >= 14 && TagEnd(text[12]) + text[5] + U16(text[6], text[7]) <= |text|
    ensures Acceptable(mib, text, m, Shown(text))
  {
    Passed(mib, text, m);
    AuthenticExactly(mib, text, TagEnd(text[12]));
    ShownFields(text);
    Resummed(text);
  }

  /** With a right checksum, or without one, the frame shown is the text. */
  lemma Resummed(text: seq<byte>)
    requires Whole(text)
    ensures FrameText(Shown(text)) == text
  {
    var n := TagEnd(text[12]) + text[5] + U16(text[6], text[7]);
    Rejoined(text);
    if |text| == n {
      assert text[..n] == text;
    } else {
      Resum(text[..n], text[n], text[n + 1]);
      LastTwo(text, n);
    }
  }

  lemma Resum(body: seq<byte>, hi: byte, lo: byte)
    requires U16(hi, lo) == Checksum(body)
    ensures WithChecksum(body) == body + [hi, lo]
  {
    U16OfBytes(hi, lo);
  }

  lemma LastTwo(text: seq<byte>, n: nat)
    requires |text| == n + 2
    ensures text == text[..n] + [text[n], text[n + 1]]
  {
  }

  lemma Rejoined(text: seq<byte>)
    requires |text| >= 14 && TagEnd(text[12]) + text[5] + U16(text[6], text[7]) <= |text|
    ensures text[..TagEnd(text[12]) + text[5] + U16(text[6], text[7])] == FrameBody(Shown(text))
  {
    var start := TagEnd(text[12]);
    var s := text[..start + text[5] + U16(text[6], text[7])];
    ShownFields(text);
    FrontShown(Shown(text), text);
    Cut(s, start, start + text[5]);
    assert s[..8] == text[..8] && s[8..12] == text[8..12] && s[13..start] == text[13..start];
    assert s[start..start + text[5]] == text[start..start + text[5]];
    assert s[start + text[5]..] == text[start + text[5]..start + text[5] + U16(text[6], text[7])];
  }

  lemma Cut(s: seq<byte>, i: nat, j: nat)
    requires 13 <= i <= j <= |s|
    ensures s == s[..8] + s[8..12] + [s[12]] + s[13..i] + s[i..j] + s[j..]
  {
    assert s[..13] == s[..8] + s[8..12] + [s[12]];
    assert s[..i] == s[..13] + s[13..i];
    assert s[..j] == s[..i] + s[i..j];
  }

  /** f has the numbers that stand in front of the memo. */
  ghost predicate SameFront(f: Frame, text: seq<byte>)
    requires |text| >= 14
  {
    && FirstOctet(f) == text[0] && ReadOrigin(text) == f.m.origin && |f.auth| == text[5]
    && |f.m.supplement| == U16(text[6], text[7])
  }

  lemma ShownFields(text: seq<byte>)
    requires |text| >= 14 && TagEnd(text[12]) + text[5] + U16(text[6], text[7]) <= |text|
    ensures SameFront(Shown(text), text) && Shown(text).version < 4 && Fit(Shown(text).m)
  {
    FirstShown(text[0]);
  }

  /** Any other text is malformed. */
  lemma MalformedExactly(mib: map<Origin, Parms>, text: seq<byte>)
    ensures Receive(mib, text).NotDelivered? || Receive(mib, text).BadAuthenticator? || Receive(mib, text).Delivered?
      <==> exists f :: WellFormed(f) && FrameText(f) == text
  {
    if Receive(mib, text).NotDelivered? || Receive(mib, text).BadAuthenticator? || Receive(mib, text).Delivered? {
      WholeThen(mib, text);
      ShownFields(text);
      Resummed(text);
      assert WellFormed(Shown(text)) && FrameText(Shown(text)) == text;
    }
    if f :| WellFormed(f) && FrameText(f) == text { FrameAnswered(mib, f); }
  }

  lemma WholeThen(mib: map<Origin, Parms>, text: seq<byte>)
    requires Receive(mib, text).NotDelivered? || Receive(mib, text).BadAuthenticator? || Receive(mib, text).Delivered?
    ensures Whole(text) && text[12] / 16 % 8 == 1
  {
  }

  lemma FrontShown(f: Frame, text: seq<byte>)
    requires |text| >= 14 && SameFront(f, text)
    ensures FrameFront(f) == text[..8]
  {
    U16OfBytes(text[2], text[3]);
    U16OfBytes(text[6], text[7]);
    LowOfOctet(text[0]);
    LowOfOctet(text[1]);
    LowOfOctet(text[4]);
    LowOfOctet(text[5]);
    FrameFrontAt(f);
    Eight(FrameFront(f), text);
  }

  lemma FirstShown(b: byte)
    ensures b / 64 * 64 + (if b / 32 % 2 == 1 then 32 else 0) + b % 32 == b && b / 64 < 4
  {
  }

  lemma Eight(s: seq<byte>, text: seq<byte>)
    requires |s| == 8 <= |text|
    requires s[0] == text[0] && s[1] == text[1] && s[2] == text[2] && s[3] == text[3]
    requires s[4] == text[4] && s[5] == text[5] && s[6] == text[6] && s[7] == text[7]
    ensures s == text[..8]
  {
  }

  lemma FrameFrontAt(f: Frame)
    ensures
      var s := FrameFront(f);
      && s[0] == Low(FirstOctet(f)) && s[1] == Low(f.m.origin.venture) && s[2] == High(f.m.origin.unit)
      && s[3] == Low(f.m.origin.unit) && s[4] == Low(f.m.origin.role) && s[5] == Low(|f.auth|)
      && s[6] == High(|f.m.supplement|) && s[7] == Low(|f.m.supplement|)
  {
  }

  lemma LowOfOctet(b: byte)
    ensures Low(b) == b
  {
  }

  lemma FrameDelivered(mib: map<Origin, Parms>, f: Frame)
    requires WellFormed(f) && f.m.origin in mib
    requires mib[f.m.origin].verifies ==> SignedBy(mib[f.m.origin].name, f.auth)
    ensures Receive(mib, FrameText(f)) == Delivered(f.m)
  {
    FrameAnswered(mib, f);
  }

  /** A well-formed frame is not delivered if its origin is unknown, and refused
      if it should be signed and is not. */
  lemma FrameAnswered(mib: map<Origin, Parms>, f: Frame)
    requires WellFormed(f)
    ensures Receive(mib, FrameText(f)) ==
      if f.m.origin !in mib then NotDelivered
      else if mib[f.m.origin].verifies && !SignedBy(mib[f.m.origin].name, f.auth) then BadAuthenticator
      else Delivered(f.m)
  {
    FrameParts(f);
    ReadIsReceived(mib, FrameText(f), f);
  }

  lemma ReadIsReceived(mib: map<Origin, Parms>, text: seq<byte>, f: Frame)
    requires WellFormed(f) && Reads(text, f)
    ensures Receive(mib, text) ==
      if f.m.origin !in mib then NotDelivered
      else if mib[f.m.origin].verifies && !SignedBy(mib[f.m.origin].name, f.auth) then BadAuthenticator
      else Delivered(f.m)
  {
    if f.m.origin in mib { AuthenticExactly(mib, text, TagEnd(f.preamble)); }
  }

  /** The receiver finds each part of f in its place. */
  ghost predicate Reads(text: seq<byte>, f: Frame) {
    var start := TagEnd(f.preamble);
    && |text| == start + |f.auth| + |f.m.supplement| + (if f.flagged then 2 else 0)
    && text[0] % 32 == f.m.pduType && (text[0] / 32 % 2 == 1 <==> f.flagged) && ReadOrigin(text) == f.m.origin
    && text[5] == |f.auth| && U16(text[6], text[7]) == |f.m.supplement| && text[8..12] == f.m.memo
    && text[12] == f.preamble && text[start..start + |f.auth|] == f.auth
    && text[start + |f.auth|..start + |f.auth| + |f.m.supplement|] == f.m.supplement
    && (f.flagged ==> U16(text[|text|-2], text[|text|-1]) == Checksum(text[..|text|-2]))
  }

  lemma FrameParts(f: Frame)
    requires WellFormed(f)
    ensures Reads(FrameText(f), f)
  {
    var body, text := FrameBody(f), FrameText(f);
    var sum: seq<byte> := if f.flagged then [High(Checksum(body)), Low(Checksum(body))] else [];
    assert text == body + sum;
    FrameOctets(f);
    PartsStand(FrameFront(f), f.m.memo, f.preamble, f.tag, f.auth, f.m.supplement, sum);
    if f.flagged {
      U16RoundTrip(Checksum(body));
      assert text[..|text|-2] == body;
    }
  }

  lemma PartsStand(front: seq<byte>, memo: seq<byte>, preamble: byte, tag: seq<byte>, auth: seq<byte>,
                   supplement: seq<byte>, sum: seq<byte>)
    requires |front| == 8 && |memo| == 4
    ensures
      var text, start := front + memo + [preamble] + tag + auth + supplement + sum, 13 + |tag|;
      && (forall i :: 0 <= i < 8 ==> text[i] == front[i]) && text[8..12] == memo && text[12] == preamble
      && text[start..start + |auth|] == auth
      && text[start + |auth|..start + |auth| + |supplement|] == supplement
  {
    var head := front + memo + [preamble];
    var text := head + tag + auth + supplement + sum;
    assert forall i :: 0 <= i < 13 ==> text[i] == head[i];
    assert text[8..12] == memo;
  }

  lemma FrameOctets(f: Frame)
    requires WellFormed(f)
    ensures var s := FrameFront(f);
      && s[0] % 32 == f.m.pduType && (s[0] / 32 % 2 == 1 <==> f.flagged) && s[1] == f.m.origin.venture
      && U16(s[2], s[3]) == f.m.origin.unit && s[4] == f.m.origin.role && s[5] == |f.auth|
      && U16(s[6], s[7]) == |f.m.supplement|
  {
    U16RoundTrip(f.m.origin.unit);
    U16RoundTrip(|f.m.supplement|);
    FirstRead(f.version, f.flagged, f.m.pduType);
    Divided(FirstOctet(f), 0, FirstOctet(f));
    Divided(f.m.origin.venture, 0, f.m.origin.venture);
    Divided(f.m.origin.role, 0, f.m.origin.role);
    Divided(|f.auth|, 0, |f.auth|);
    FrameFrontAt(f);
  }

  lemma FirstRead(version: nat, flagged: bool, pduType: nat)
    requires version < 4 && pduType < 32
    ensures var n := version * 64 + (if flagged then 32 else 0) + pduType;
      n < 256 && n % 32 == pduType && (n / 32 % 2 == 1 <==> flagged)
  {
  }

  /** A message with one octet damaged is not delivered. */
  lemma DamagedIsNotDelivered(mib: map<Origin, Parms>, m: MamsMsg, nonce: seq<byte>, time: seq<byte>, i: nat, b: byte)
    requires Fit(m) && |nonce| == 4 && |time| == 4 && Send(mib, m, nonce, time).Message?
    requires i < |Send(mib, m, nonce, time).text| && b != Send(mib, m, nonce, time).text[i]
    ensures !Receive(mib, Send(mib, m, nonce, time).text[i := b]).Delivered?
  {
    var auth := Authenticator(mib[m.origin], nonce);
    SentCarries(m, auth, time);
    DamageIsFound(mib, Send(mib, m, nonce, time).text, m, auth, i, b);
  }

  lemma DamageIsFound(mib: map<Origin, Parms>, text: seq<byte>, m: MamsMsg, auth: seq<byte>, i: nat, b: byte)
    requires Carries(text, m, auth) && i < |text| && b != text[i]
    ensures !Receive(mib, text[i := b]).Delivered?
  {
    if i == 0 && b / 32 % 2 == 0 {
      FlagLost(mib, text, m, auth, b);
    } else {
      ChecksumTells(mib, text[i := b]);
      SumDiffers(text, i, b);
    }
  }

  /** Without the flag the checksum makes the text too long. */
  lemma FlagLost(mib: map<Origin, Parms>, text: seq<byte>, m: MamsMsg, auth: seq<byte>, b: byte)
    requires Carries(text, m, auth) && b / 32 % 2 == 0
    ensures !Receive(mib, text[0 := b]).Delivered?
  {
    var bad := text[0 := b];
    assert bad[12] == text[12] && bad[5] == text[5] && bad[6] == text[6] && bad[7] == text[7];
  }

  lemma ChecksumTells(mib: map<Origin, Parms>, text: seq<byte>)
    requires |text| >= 14 && text[0] / 32 % 2 == 1
    ensures U16(text[|text|-2], text[|text|-1]) != Checksum(text[..|text|-2]) ==> !Receive(mib, text).Delivered?
  {
  }

  lemma SumDiffers(text: seq<byte>, i: nat, b: byte)
    requires i < |text| && |text| >= 2 && b != text[i]
    requires U16(text[|text|-2], text[|text|-1]) == Checksum(text[..|text|-2])
    ensures var bad := text[i := b]; U16(bad[|bad|-2], bad[|bad|-1]) != Checksum(bad[..|bad|-2])
  {
    var n, bad := |text| - 2, text[i := b];
    if i < n {
      assert bad[..n] == text[..n][i := b];
      DamageShows(text[..n], i, b);
    } else {
      assert bad[..n] == text[..n];
      U16OfBytes(text[n], text[n + 1]);
      U16OfBytes(bad[n], bad[n + 1]);
      assert U16(bad[n], bad[n + 1]) != U16(text[n], text[n + 1]);
    }
  }

  // ---- Building and taking apart --------------------------------------------------------------

  method FillHead(msg: array<byte>, m: MamsMsg, authLength: nat, time: seq<byte>) returns (c: nat)
    requires |m.memo| == 4 && |time| == 4 && msg.Length >= 17
    modifies msg
    ensures msg[..] == Overwritten(old(msg[..]), 0, Head(m, authLength, time)) && c == 17
  {
    var fixed: seq<byte> := [Low(0x20 + m.pduType % 32), Low(m.origin.venture), High(m.origin.unit),
                             Low(m.origin.unit), Low(m.origin.role), Low(authLength),
                             High(|m.supplement|), Low(|m.supplement|)];
    assert fixed == Front(m, authLength);
    assert Head(m, authLength, time) == fixed + m.memo + [28] + time;
    c := PutFour(msg, 0, fixed, m.memo, [28], time);
  }

  method BuildAuthenticator(p: Parms, nonce: seq<byte>) returns (auth: seq<byte>)
    ensures auth == Authenticator(p, nonce)
  {
    auth := [];
    if p.signs { auth := nonce + nonce + p.name; }
  }

  method SendMamsMsg(mib: map<Origin, Parms>, m: MamsMsg, nonce: seq<byte>, time: seq<byte>) returns (r: Sent)
    requires |m.memo| == 4 && |nonce| == 4 && |time| == 4
    ensures r == Send(mib, m, nonce, time)
  {
    if m.origin !in mib { return NotSent; }
    var p := mib[m.origin];
    if p.signs && (p.name == [] || |p.name| > LONGEST_SIGNER) { return BadName; }
    var auth := BuildAuthenticator(p, nonce);
    var msg := new byte[12 + 5 + |auth| + |m.supplement| + 2](_ => 0);
    ghost var blank := msg[..];
    var c := FillHead(msg, m, |auth|, time);
    c := PutTwo(msg, c, auth, m.supplement);
    ghost var body := Body(m, auth, time);
    OverwriteTwice(blank, 0, Head(m, |auth|, time), auth + m.supplement);
    assert msg[..msg.Length - 2] == body;
    var checksum := ComputeAmsChecksum(msg[..msg.Length - 2]);
    c := Put(msg, c, [High(checksum), Low(checksum)]);
    OverwriteTwice(blank, 0, body, [High(checksum), Low(checksum)]);
    assert msg[..] == WithChecksum(body);
    r := Message(msg[..]);
  }

  /** Moves behind the octets of the time tag. */
  method PassTimeTag(text: seq<byte>) returns (cursor: nat)
    requires |text| >= 14 && |text| >= TagEnd(text[12])
    ensures cursor == TagEnd(text[12])
  {
    var coarseTimeLength, fineTimeLength := text[12] / 4 % 4 + 1, text[12] % 4;
    cursor := 13;
    while coarseTimeLength > 0
      invariant cursor + coarseTimeLength == 13 + text[12] / 4 % 4 + 1 && coarseTimeLength >= 0
    {
      cursor, coarseTimeLength := cursor + 1, coarseTimeLength - 1;
    }
    while fineTimeLength > 0
      invariant cursor + fineTimeLength == TagEnd(text[12]) && fineTimeLength >= 0
    {
      cursor, fineTimeLength := cursor + 1, fineTimeLength - 1;
    }
  }

  method EnqueueMamsMsg(mib: map<Origin, Parms>, text: seq<byte>) returns (r: Received)
    ensures r == Receive(mib, text)
  {
    var length := |text|;
    if length < 14 { return Incomplete; }
    if text[12] / 16 % 8 != 1 { return UnknownTimeCode; }
    var expectedLength := 12 + 1 + (text[12] / 4 % 4 + 1) + text[12] % 4;
    if length < expectedLength { return Truncated; }
    var cursor := PassTimeTag(text);
    if text[0] / 32 % 2 == 1 {
      expectedLength := expectedLength + 2;
      if length < expectedLength { return Truncated; }
      var checksum := ComputeAmsChecksum(text[..length - 2]);
      if U16(text[length - 2], text[length - 1]) != checksum { return ChecksumFailed; }
    }
    r := TakeApart(mib, text, cursor, expectedLength);
  }

  /** The rest of enqueueMamsMsg, behind the time tag. */
  method TakeApart(mib: map<Origin, Parms>, text: seq<byte>, start: nat, expected: nat) returns (r: Received)
    requires |text| >= 14 && start <= expected
    ensures r ==
      var length := U16(text[6], text[7]);
      if |text| != expected + text[5] + length then LengthError
      else if ReadOrigin(text) !in mib then NotDelivered
      else if !Authentic(mib, text, start) then BadAuthenticator
      else
        Delivered(MamsMsg(text[0] % 32, ReadOrigin(text), text[8..12],
                          text[start + text[5]..start + text[5] + length]))
  {
    var authLength: nat, supplementLength: nat := text[5], U16(text[6], text[7]);
    if |text| != expected + authLength + supplementLength { return LengthError; }
    var origin := Origin(text[1], U16(text[2], text[3]), text[4]);
    if origin !in mib { return NotDelivered; }
    AuthenticExactly(mib, text, start);
    var ok := CheckAuthenticator(mib[origin], text, start, authLength);
    if !ok { return BadAuthenticator; }
    var supplement := start + authLength;
    r := Delivered(MamsMsg(text[0] % 32, origin, text[8..12], text[supplement..supplement + supplementLength]));
  }

  /** The comparisons of nonce and name. */
  method CheckAuthenticator(p: Parms, text: seq<byte>, start: nat, length: nat) returns (ok: bool)
    requires start + length <= |text|
    ensures ok <==> (p.verifies ==> SignedBy(p.name, text[start..start + length]))
  {
    if !p.verifies { return true; }
    ghost var auth := text[start..start + length];
    if |p.name| == 0 || |p.name| > LONGEST_SIGNER || length != |p.name| + 8 { return false; }
    var nonce, again, name := text[start..start + 4], text[start + 4..start + 8], text[start + 8..start + length];
    assert auth == nonce + again + name;
    ok := nonce == again && name == p.name;
    if ok { assert IsSigned(p.name, nonce, auth); }
    forall n | IsSigned(p.name, n, auth) ensures ok {
      assert auth[..4] == n && auth[4..8] == n && auth[8..] == p.name;
      assert auth[..4] == nonce && auth[4..8] == again && auth[8..] == name;
    }
  }
}
