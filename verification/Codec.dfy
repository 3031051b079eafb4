/** Contact summaries and declarations as octets: how a module writes them, how
    other modules parse them, and how a registrar skips them. */
module Codec {
  import opened Lists
  import opened Octets
  import opened Resync

  const NUL: byte := 0
  const EQUALS: byte := 61
  const COMMA: byte := 44

  // ---- Assertions --------------------------------------------------------------------------

  const ASSERTION_LEN := 9

  function AssertionBytes(a: Assertion): (s: seq<byte>)
    ensures |s| == ASSERTION_LEN
  {
    [High(a.subject), Low(a.subject), High(a.continuum) % 128, Low(a.continuum), High(a.unit), Low(a.unit),
     Low(a.role), Low(a.vector * 16 + a.priority % 16), Low(a.flowLabel)]
  }

  predicate FitAssertion(a: Assertion) {
    && -0x8000 <= a.subject < 0x8000 && a.continuum < 0x8000 && a.unit < 0x1_0000 && a.role < 256
    && a.vector < 16 && a.priority < 16 && a.flowLabel < 256
  }

  /** What parseAssertion makes of nine octets. */
  function ReadAssertion(s: seq<byte>): (a: Assertion)
    requires |s| >= ASSERTION_LEN
  {
    Assertion(S16(s[0], s[1]), s[6], U16(s[2] % 128, s[3]), U16(s[4], s[5]), s[7] / 16, s[7] % 16, s[8])
  }

  lemma AssertionRoundTrip(a: Assertion, rest: seq<byte>)
    requires FitAssertion(a)
    ensures ReadAssertion(AssertionBytes(a) + rest) == a
  {
    ReadPrefix(AssertionBytes(a), rest);
    NineOctets(High(a.subject), Low(a.subject), High(a.continuum) % 128, Low(a.continuum), High(a.unit),
               Low(a.unit), Low(a.role), Low(a.vector * 16 + a.priority % 16), Low(a.flowLabel));
    NumbersKept(a);
    OctetsKept(a);
  }

  lemma NumbersKept(a: Assertion)
    requires FitAssertion(a)
    ensures S16(High(a.subject), Low(a.subject)) == a.subject && U16(High(a.unit), Low(a.unit)) == a.unit
    ensures U16(High(a.continuum) % 128 % 128, Low(a.continuum)) == a.continuum
  {
    S16RoundTrip(a.subject);
    U16RoundTrip(a.continuum);
    U16RoundTrip(a.unit);
  }

  lemma OctetsKept(a: Assertion)
    requires FitAssertion(a)
    ensures var b := Low(a.vector * 16 + a.priority % 16); b / 16 == a.vector && b % 16 == a.priority
    ensures Low(a.role) == a.role && Low(a.flowLabel) == a.flowLabel
  {
    OctetItself(a.priority);
    Nibbles(a.vector, a.priority);
    OctetItself(a.role);
    OctetItself(a.flowLabel);
  }

  lemma NineOctets(b0: byte, b1: byte, b2: byte, b3: byte, b4: byte, b5: byte, b6: byte, b7: byte, b8: byte)
    ensures ReadAssertion([b0, b1, b2, b3, b4, b5, b6, b7, b8]) ==
      Assertion(S16(b0, b1), b6, U16(b2 % 128, b3), U16(b4, b5), b7 / 16, b7 % 16, b8)
  {
  }

  lemma ReadPrefix(s: seq<byte>, rest: seq<byte>)
    requires |s| == ASSERTION_LEN
    ensures ReadAssertion(s + rest) == ReadAssertion(s)
  {
    assert forall i :: 0 <= i < ASSERTION_LEN ==> (s + rest)[i] == s[i];
  }

  lemma OctetItself(n: nat)
    ensures n < 256 ==> Low(n) == n
    ensures n < 16 ==> n % 16 == n
  {
  }

  lemma Nibbles(hi: nat, lo: nat)
    requires hi < 16 && lo < 16
    ensures Low(hi * 16 + lo) == hi * 16 + lo && Low(hi * 16 + lo) / 16 == hi && Low(hi * 16 + lo) % 16 == lo
  {
  }

  // ---- Declarations ------------------------------------------------------------------------

  function AssertionsBytes(list: seq<Assertion>): (s: seq<byte>)
    ensures |s| == |list| * ASSERTION_LEN
  {
    if list == [] then [] else AssertionBytes(list[0]) + AssertionsBytes(list[1..])
  }

  function DeclarationBytes(d: Declaration): (s: seq<byte>)
    ensures |s| == 2 + |d.subscriptions| * ASSERTION_LEN + 2 + |d.invitations| * ASSERTION_LEN
  {
    [High(|d.subscriptions|), Low(|d.subscriptions|)] + AssertionsBytes(d.subscriptions)
    + ([High(|d.invitations|), Low(|d.invitations|)] + AssertionsBytes(d.invitations))
  }

  /** Something read from the front of a text, and the text behind it. */
  datatype Parsed<T> = Parsed(value: T, rest: seq<byte>)

  function ParseAssertions(s: seq<byte>, count: nat): (r: Option<Parsed<seq<Assertion>>>)
    decreases count
  {
    if count == 0 then Some(Parsed([], s))
    else if |s| < ASSERTION_LEN then None
    else
      match ParseAssertions(s[ASSERTION_LEN..], count - 1)
      case None => None
      case Some(p) => Some(Parsed([ReadAssertion(s)] + p.value, p.rest))
  }

  function ParseList(s: seq<byte>): (r: Option<Parsed<seq<Assertion>>>) {
    if |s| < 2 then None else ParseAssertions(s[2..], U16(s[0], s[1]))
  }

  /** processDeclaration's reading of a declaration. */
  function ParseDeclaration(s: seq<byte>): (r: Option<Parsed<Declaration>>) {
    match ParseList(s)
    case None => None
    case Some(p) =>
      match ParseList(p.rest)
      case None => None
      case Some(q) => Some(Parsed(Declaration(p.value, q.value), q.rest))
  }

  lemma {:induction false} AssertionsRoundTrip(list: seq<Assertion>, rest: seq<byte>)
    requires forall a :: a in list ==> FitAssertion(a)
    ensures ParseAssertions(AssertionsBytes(list) + rest, |list|) == Some(Parsed(list, rest))
  {
    if list == [] {
      assert AssertionsBytes(list) + rest == rest;
    } else {
      var others := AssertionsBytes(list[1..]);
      AssertionRoundTrip(list[0], others + rest);
      AssertionsRoundTrip(list[1..], rest);
      OneMore(AssertionBytes(list[0]), others, list, rest);
    }
  }

  lemma OneMore(first: seq<byte>, others: seq<byte>, list: seq<Assertion>, rest: seq<byte>)
    requires |first| == ASSERTION_LEN && list != [] && ReadAssertion(first + (others + rest)) == list[0]
    requires ParseAssertions(others + rest, |list| - 1) == Some(Parsed(list[1..], rest))
    ensures ParseAssertions(first + others + rest, |list|) == Some(Parsed(list, rest))
  {
    Assoc(first, others, rest);
    assert (first + (others + rest))[ASSERTION_LEN..] == others + rest;
    assert list == [list[0]] + list[1..];
  }

  lemma ListRoundTrip(list: seq<Assertion>, rest: seq<byte>)
    requires |list| < 0x1_0000 && forall a :: a in list ==> FitAssertion(a)
    ensures ParseList([High(|list|), Low(|list|)] + AssertionsBytes(list) + rest) == Some(Parsed(list, rest))
  {
    var count := [High(|list|), Low(|list|)];
    Assoc(count, AssertionsBytes(list), rest);
    var s := count + (AssertionsBytes(list) + rest);
    assert s[0] == count[0] && s[1] == count[1] && s[2..] == AssertionsBytes(list) + rest;
    U16RoundTrip(|list|);
    AssertionsRoundTrip(list, rest);
  }

  predicate FitDeclaration(d: Declaration) {
    && |d.subscriptions| < 0x1_0000 && (forall a :: a in d.subscriptions ==> FitAssertion(a))
    && |d.invitations| < 0x1_0000 && (forall a :: a in d.invitations ==> FitAssertion(a))
  }

  /** Parsing recovers what was declared. */
  lemma DeclarationRoundTrip(d: Declaration, rest: seq<byte>)
    requires FitDeclaration(d)
    ensures ParseDeclaration(DeclarationBytes(d) + rest) == Some(Parsed(d, rest))
  {
    var a := [High(|d.subscriptions|), Low(|d.subscriptions|)] + AssertionsBytes(d.subscriptions);
    var b := [High(|d.invitations|), Low(|d.invitations|)] + AssertionsBytes(d.invitations);
    Assoc(a, b, rest);
    ListRoundTrip(d.subscriptions, b + rest);
    ListRoundTrip(d.invitations, rest);
  }

  /** The registrar's reading of a declaration. */
  function SkipList(s: seq<byte>): (r: Option<seq<byte>>) {
    if |s| < 2 || |s| - 2 < U16(s[0], s[1]) * ASSERTION_LEN then None
    else Some(s[2 + U16(s[0], s[1]) * ASSERTION_LEN..])
  }

  function SkipDeclaration(s: seq<byte>): (r: Option<seq<byte>>) {
    match SkipList(s) case None => None case Some(rest) => SkipList(rest)
  }

  lemma {:induction false} ParseAssertionsRest(s: seq<byte>, count: nat)
    ensures ParseAssertions(s, count).Some? <==> |s| >= count * ASSERTION_LEN
    ensures ParseAssertions(s, count).Some? ==>
      ParseAssertions(s, count).value.rest == s[count * ASSERTION_LEN..]
    decreases count
  {
    if count > 0 && |s| >= ASSERTION_LEN { ParseAssertionsRest(s[ASSERTION_LEN..], count - 1); }
  }

  /** On any text at all, skipping a declaration succeeds exactly if parsing it
      does, and stops at the same place. */
  lemma SkipAgrees(s: seq<byte>)
    ensures SkipDeclaration(s).None? <==> ParseDeclaration(s).None?
    ensures SkipDeclaration(s).Some? ==> SkipDeclaration(s).value == ParseDeclaration(s).value.rest
  {
    SkipListAgrees(s);
    if SkipList(s).Some? { SkipListAgrees(SkipList(s).value); }
  }

  lemma SkipListAgrees(s: seq<byte>)
    ensures SkipList(s).None? <==> ParseList(s).None?
    ensures SkipList(s).Some? ==> SkipList(s).value == ParseList(s).value.rest
  {
    if |s| >= 2 { ParseAssertionsRest(s[2..], U16(s[0], s[1])); }
  }

  // ---- Contact summaries -------------------------------------------------------------------

  /** A way to reach a module: a transport service and an endpoint name. */
  datatype Interface = Interface(ts: seq<byte>, ept: seq<byte>)

  datatype Vector = Vector(nbr: nat, interfaces: seq<Interface>)

  datatype Contact = Contact(ept: seq<byte>, vectors: seq<Vector>)

  // The length that getContactSummaryLength computes.

  function InterfacesLength(list: seq<Interface>): (n: nat) {
    if list == [] then 0 else |list[0].ts| + 1 + |list[0].ept| + 1 + InterfacesLength(list[1..])
  }

  function VectorsLength(list: seq<Vector>): (n: nat) {
    if list == [] then 0 else 1 + InterfacesLength(list[0].interfaces) + VectorsLength(list[1..])
  }

  function ContactLength(c: Contact): (n: nat) {
    |c.ept| + 1 + 1 + VectorsLength(c.vectors)
  }

  // Its contents, which have that length.

  function InterfacesBytes(list: seq<Interface>): (s: seq<byte>)
    ensures |s| == InterfacesLength(list)
  {
    if list == [] then []
    else
      list[0].ts + ([EQUALS] + (list[0].ept + ([if |list| == 1 then NUL else COMMA] + InterfacesBytes(list[1..]))))
  }

  function VectorBytes(v: Vector): (s: seq<byte>)
    ensures |s| == 1 + InterfacesLength(v.interfaces)
  {
    [Low(|v.interfaces| % 16 + v.nbr * 16)] + InterfacesBytes(v.interfaces)
  }

  function VectorsBytes(list: seq<Vector>): (s: seq<byte>)
    ensures |s| == VectorsLength(list)
  {
    if list == [] then [] else VectorBytes(list[0]) + VectorsBytes(list[1..])
  }

  function ContactBytes(c: Contact): (s: seq<byte>)
    ensures |s| == ContactLength(c)
  {
    c.ept + ([NUL] + ([Low(|c.vectors|)] + VectorsBytes(c.vectors)))
  }

  // ---- Parsing and skipping contact summaries ----------------------------------------------

  /** The text up to the first a or b, and the text behind that octet. */
  function Split(s: seq<byte>, a: byte, b: byte): (r: Option<Parsed<seq<byte>>>) {
    if s == [] then None
    else if s[0] == a || s[0] == b then Some(Parsed([], s[1..]))
    else
      match Split(s[1..], a, b)
      case None => None
      case Some(p) => Some(Parsed([s[0]] + p.value, p.rest))
  }

  lemma {:induction false} SplitRoundTrip(name: seq<byte>, end: byte, rest: seq<byte>, a: byte, b: byte)
    requires a !in name && b !in name && (end == a || end == b)
    ensures Split(name + ([end] + rest), a, b) == Some(Parsed(name, rest))
  {
    var s := name + ([end] + rest);
    if name == [] {
      assert s == [end] + rest;
    } else {
      assert name == [name[0]] + name[1..];
      SplitRoundTrip(name[1..], end, rest, a, b);
      assert s[1..] == name[1..] + ([end] + rest);
    }
  }

  /** parseAmsEndpoint. */
  function ParseEndpoint(s: seq<byte>): (r: Option<Parsed<Interface>>) {
    match Split(s, EQUALS, EQUALS)
    case None => None
    case Some(p) =>
      match Split(p.rest, COMMA, NUL)
      case None => None
      case Some(q) => Some(Parsed(Interface(p.value, q.value), q.rest))
  }

  function ParseEndpoints(s: seq<byte>, count: nat): (r: Option<Parsed<seq<Interface>>>)
    decreases count
  {
    if count == 0 then Some(Parsed([], s))
    else
      match ParseEndpoint(s)
      case None => None
      case Some(p) =>
        match ParseEndpoints(p.rest, count - 1)
        case None => None
        case Some(q) => Some(Parsed([p.value] + q.value, q.rest))
  }

  function ParseVector(s: seq<byte>): (r: Option<Parsed<Vector>>) {
    if s == [] then None
    else
      match ParseEndpoints(s[1..], s[0] % 16)
      case None => None
      case Some(p) => Some(Parsed(Vector(s[0] / 16, p.value), p.rest))
  }

  function ParseVectors(s: seq<byte>, count: int): (r: Option<Parsed<seq<Vector>>>)
    decreases count
  {
    if count <= 0 then Some(Parsed([], s))
    else
      match ParseVector(s)
      case None => None
      case Some(p) =>
        match ParseVectors(p.rest, count - 1)
        case None => None
        case Some(q) => Some(Parsed([p.value] + q.value, q.rest))
  }

  /** parseDeliveryVectorList; the count is a plain char. */
  function ParseVectorList(s: seq<byte>, signed: bool): (r: Option<Parsed<seq<Vector>>>) {
    if s == [] then None else ParseVectors(s[1..], PlainChar(signed, s[0]))
  }

  /** The registrar skips to the end of a string for each delivery vector. */
  function SkipVectors(s: seq<byte>, count: nat): (r: Option<seq<byte>>)
    decreases count
  {
    if count == 0 then Some(s)
    else if s == [] then None
    else
      match Split(s[1..], NUL, NUL)
      case None => None
      case Some(p) => SkipVectors(p.rest, count - 1)
  }

  function SkipVectorList(s: seq<byte>): (r: Option<seq<byte>>) {
    if s == [] then None else SkipVectors(s[1..], s[0])
  }

  predicate FitInterface(i: Interface) {
    EQUALS !in i.ts && NUL !in i.ts && COMMA !in i.ept && NUL !in i.ept
  }

  predicate FitVector(v: Vector) {
    v.nbr < 16 && 1 <= |v.interfaces| < 16 && forall i :: i in v.interfaces ==> FitInterface(i)
  }

  predicate FitContact(c: Contact) {
    NUL !in c.ept && |c.vectors| < 128 && forall v :: v in c.vectors ==> FitVector(v)
  }

  lemma EndpointRoundTrip(i: Interface, end: byte, rest: seq<byte>)
    requires FitInterface(i) && (end == COMMA || end == NUL)
    ensures ParseEndpoint(i.ts + ([EQUALS] + (i.ept + ([end] + rest)))) == Some(Parsed(i, rest))
  {
    SplitRoundTrip(i.ts, EQUALS, i.ept + ([end] + rest), EQUALS, EQUALS);
    SplitRoundTrip(i.ept, end, rest, COMMA, NUL);
  }

  lemma Nested(a: seq<byte>, b: seq<byte>, c: seq<byte>, d: seq<byte>, e: seq<byte>, rest: seq<byte>)
    ensures a + (b + (c + (d + e))) + rest == a + (b + (c + (d + (e + rest))))
  {
  }

  lemma {:induction false} EndpointsRoundTrip(list: seq<Interface>, rest: seq<byte>)
    requires forall i :: i in list ==> FitInterface(i)
    ensures ParseEndpoints(InterfacesBytes(list) + rest, |list|) == Some(Parsed(list, rest))
  {
    if list == [] {
      assert InterfacesBytes(list) + rest == rest;
    } else {
      var i, end, others := list[0], if |list| == 1 then NUL else COMMA, InterfacesBytes(list[1..]);
      assert list == [i] + list[1..] && FitInterface(i);
      EndpointsRoundTrip(list[1..], rest);
      Nested(i.ts, [EQUALS], i.ept, [end], others, rest);
      EndpointRoundTrip(i, end, others + rest);
    }
  }

  lemma VectorRoundTrip(v: Vector, rest: seq<byte>)
    requires FitVector(v)
    ensures ParseVector(VectorBytes(v) + rest) == Some(Parsed(v, rest))
  {
    var b := Low(|v.interfaces| % 16 + v.nbr * 16);
    OctetItself(|v.interfaces|);
    Nibbles(v.nbr, |v.interfaces|);
    Assoc([b], InterfacesBytes(v.interfaces), rest);
    EndpointsRoundTrip(v.interfaces, rest);
    CountedVector(b, InterfacesBytes(v.interfaces) + rest, v, rest);
  }

  lemma CountedVector(b: byte, s: seq<byte>, v: Vector, rest: seq<byte>)
    requires b / 16 == v.nbr && ParseEndpoints(s, b % 16) == Some(Parsed(v.interfaces, rest))
    ensures ParseVector([b] + s) == Some(Parsed(v, rest))
  {
    ConsParts(b, s);
  }

  /** The only NUL in the names of a delivery vector is the one at its end. */
  lemma {:induction false} InterfacesEnd(list: seq<Interface>, rest: seq<byte>)
    requires list != [] && forall i :: i in list ==> FitInterface(i)
    ensures Split(InterfacesBytes(list) + rest, NUL, NUL).Some?
    ensures Split(InterfacesBytes(list) + rest, NUL, NUL).value.rest == rest
  {
    var i, end, others := list[0], if |list| == 1 then NUL else COMMA, InterfacesBytes(list[1..]);
    var name := i.ts + [EQUALS] + i.ept;
    Nested(i.ts, [EQUALS], i.ept, [end], others, rest);
    Flat(i.ts, [EQUALS], i.ept, [end] + (others + rest));
    assert NUL !in name by { assert FitInterface(i); }
    if |list| == 1 {
      WithNothing(rest);
      SplitRoundTrip(name, NUL, rest, NUL, NUL);
    } else {
      InterfacesEnd(list[1..], rest);
      Assoc(name, [COMMA], others + rest);
      SplitBehind(name + [COMMA], others + rest, NUL);
    }
  }

  lemma Flat(a: seq<byte>, b: seq<byte>, c: seq<byte>, rest: seq<byte>)
    ensures a + (b + (c + rest)) == a + b + c + rest
  {
  }

  lemma {:induction false} SplitBehind(name: seq<byte>, s: seq<byte>, a: byte)
    requires a !in name && Split(s, a, a).Some?
    ensures Split(name + s, a, a).Some? && Split(name + s, a, a).value.rest == Split(s, a, a).value.rest
  {
    if name == [] {
      assert name + s == s;
    } else {
      assert (name + s)[1..] == name[1..] + s;
      SplitBehind(name[1..], s, a);
    }
  }

  lemma {:induction false} VectorsRoundTrip(list: seq<Vector>, rest: seq<byte>)
    requires forall v :: v in list ==> FitVector(v)
    ensures ParseVectors(VectorsBytes(list) + rest, |list|) == Some(Parsed(list, rest))
    ensures SkipVectors(VectorsBytes(list) + rest, |list|) == Some(rest)
  {
    if list == [] {
      assert VectorsBytes(list) + rest == rest;
    } else {
      var v, others := list[0], VectorsBytes(list[1..]);
      assert list == [v] + list[1..] && FitVector(v);
      Assoc(VectorBytes(v), others, rest);
      VectorRoundTrip(v, others + rest);
      assert (VectorBytes(v) + (others + rest))[1..] == InterfacesBytes(v.interfaces) + (others + rest);
      InterfacesEnd(v.interfaces, others + rest);
      VectorsRoundTrip(list[1..], rest);
    }
  }

  /** A contact summary, as read by noteModule. */
  function ParseContact(s: seq<byte>, signed: bool): (r: Option<Parsed<Contact>>) {
    match Split(s, NUL, NUL)
    case None => None
    case Some(p) =>
      match ParseVectorList(p.rest, signed)
      case None => None
      case Some(q) => Some(Parsed(Contact(p.value, q.value), q.rest))
  }

  /** The registrar's reading: the endpoint name, then the vectors skipped. */
  function SkipContact(s: seq<byte>): (r: Option<Parsed<seq<byte>>>) {
    match Split(s, NUL, NUL)
    case None => None
    case Some(p) => match SkipVectorList(p.rest) case None => None case Some(rest) => Some(Parsed(p.value, rest))
  }

  lemma VectorListRoundTrip(list: seq<Vector>, rest: seq<byte>, signed: bool)
    requires |list| < 128 && forall v :: v in list ==> FitVector(v)
    ensures ParseVectorList([Low(|list|)] + VectorsBytes(list) + rest, signed) == Some(Parsed(list, rest))
    ensures SkipVectorList([Low(|list|)] + VectorsBytes(list) + rest) == Some(rest)
  {
    var n: byte := |list|;
    assert Low(|list|) == n;
    VectorsRoundTrip(list, rest);
    CountedList(n, VectorsBytes(list), list, rest, signed);
  }

  lemma CountedList(n: byte, body: seq<byte>, list: seq<Vector>, rest: seq<byte>, signed: bool)
    requires n < 128 && ParseVectors(body + rest, n) == Some(Parsed(list, rest))
    requires SkipVectors(body + rest, n) == Some(rest)
    ensures ParseVectorList([n] + body + rest, signed) == Some(Parsed(list, rest))
    ensures SkipVectorList([n] + body + rest) == Some(rest)
  {
    Assoc([n], body, rest);
    ConsParts(n, body + rest);
  }

  /** Parsing recovers the contact summary, and skipping stops where parsing does. */
  lemma ContactRoundTrip(c: Contact, rest: seq<byte>, signed: bool)
    requires FitContact(c)
    ensures ParseContact(ContactBytes(c) + rest, signed) == Some(Parsed(c, rest))
    ensures SkipContact(ContactBytes(c) + rest) == Some(Parsed(c.ept, rest))
  {
    var list := [Low(|c.vectors|)] + VectorsBytes(c.vectors);
    Assoc(c.ept, [NUL] + list, rest);
    Assoc([NUL], list, rest);
    SplitRoundTrip(c.ept, NUL, list + rest, NUL, NUL);
    VectorListRoundTrip(c.vectors, rest, signed);
  }

  // ---- Where messages to a module go ---------------------------------------------------------

  /** The endpoint by which the messages of one delivery vector are sent. */
  datatype Point = Point(vector: nat, via: Interface)

  /** The first interface whose transport service is known here. */
  function BestFit(services: set<seq<byte>>, list: seq<Interface>): (r: Option<Interface>) {
    if list == [] then None
    else if list[0].ts in services then Some(list[0])
    else BestFit(services, list[1..])
  }

  /** The first, that is: it is known here and none before it is. */
  lemma {:induction false} BestFitIsFirst(services: set<seq<byte>>, list: seq<Interface>)
    ensures BestFit(services, list).None? <==> forall i :: 0 <= i < |list| ==> list[i].ts !in services
    ensures BestFit(services, list).Some? ==> exists k :: FirstServed(services, list, k, BestFit(services, list).value)
  {
    if list != [] && list[0].ts !in services {
      var rest := list[1..];
      BestFitIsFirst(services, rest);
      assert forall i :: 0 < i < |list| ==> list[i] == rest[i - 1];
      if BestFit(services, rest).Some? {
        var k :| FirstServed(services, rest, k, BestFit(services, rest).value);
        assert FirstServed(services, list, k + 1, BestFit(services, list).value);
      }
    } else if list != [] {
      assert FirstServed(services, list, 0, list[0]);
    }
  }

  ghost predicate FirstServed(services: set<seq<byte>>, list: seq<Interface>, k: int, i: Interface) {
    0 <= k < |list| && list[k] == i && i.ts in services && forall j :: 0 <= j < k ==> list[j].ts !in services
  }

  ghost predicate ByVector(points: seq<Point>) {
    forall i, j :: 0 <= i < j < |points| ==> points[i].vector < points[j].vector
  }

  /** insertAmsEndpoint: in order of vectors, in place of one for the same vector. */
  function InsertPoint(points: seq<Point>, p: Point): (r: seq<Point>) {
    if points == [] then [p]
    else if points[0].vector < p.vector then [points[0]] + InsertPoint(points[1..], p)
    else if points[0].vector == p.vector then [p] + points[1..]
    else [p] + points
  }

  lemma {:induction false} InsertPointElements(points: seq<Point>, p: Point)
    requires ByVector(points)
    ensures forall q :: q in InsertPoint(points, p) <==> q == p || (q in points && q.vector != p.vector)
  {
    if points != [] {
      assert points == [points[0]] + points[1..];
      assert forall q :: q in points[1..] ==> q.vector > points[0].vector;
      if points[0].vector < p.vector { InsertPointElements(points[1..], p); }
    }
  }

  lemma {:induction false} InsertPointOrder(points: seq<Point>, p: Point)
    requires ByVector(points)
    ensures ByVector(InsertPoint(points, p))
  {
    if points != [] && points[0].vector < p.vector {
      var r := InsertPoint(points[1..], p);
      InsertPointOrder(points[1..], p);
      InsertPointElements(points[1..], p);
      assert InsertPoint(points, p) == [points[0]] + r;
      forall j | 0 <= j < |r| ensures points[0].vector < r[j].vector {
        assert r[j] in r;
      }
    }
  }

  function InsertVector(services: set<seq<byte>>, points: seq<Point>, v: Vector): (r: seq<Point>) {
    match BestFit(services, v.interfaces)
    case None => points
    case Some(i) => InsertPoint(points, Point(v.nbr, i))
  }

  /** The endpoints after parsing a list of vectors. */
  function Points(services: set<seq<byte>>, points: seq<Point>, list: seq<Vector>): (r: seq<Point>) {
    if list == [] then points
    else InsertVector(services, Points(services, points, list[..|list|-1]), list[|list|-1])
  }

  /** list[k] is the last vector of p's number that is usable here, and it is
      usable by p's interface. */
  ghost predicate LastUsable(services: set<seq<byte>>, list: seq<Vector>, k: nat, p: Point) {
    && k < |list| && list[k].nbr == p.vector && BestFit(services, list[k].interfaces) == Some(p.via)
    && forall j :: k < j < |list| && list[j].nbr == p.vector ==> BestFit(services, list[j].interfaces) == None
  }

  /** A vector number is served by the first interface known here of the last
      vector of that number that has one, and by nothing if none has. */
  lemma {:induction false} PointsRight(services: set<seq<byte>>, list: seq<Vector>)
    ensures ByVector(Points(services, [], list))
    ensures forall p :: p in Points(services, [], list) <==> exists k: nat :: LastUsable(services, list, k, p)
  {
    if list != [] {
      var n := |list| - 1;
      PointsRight(services, list[..n]);
      var before, last := Points(services, [], list[..n]), list[n];
      var best := BestFit(services, last.interfaces);
      if best.Some? {
        InsertPointElements(before, Point(last.nbr, best.value));
        InsertPointOrder(before, Point(last.nbr, best.value));
      }
      forall p ensures p in Points(services, [], list) <==> exists k: nat :: LastUsable(services, list, k, p) {
        LastUsableStep(services, list, p);
      }
    }
  }

  lemma LastUsableStep(services: set<seq<byte>>, list: seq<Vector>, p: Point)
    requires list != []
    ensures var n, best := |list| - 1, BestFit(services, list[|list|-1].interfaces);
      (exists k: nat :: LastUsable(services, list, k, p)) <==>
        if best.Some? && list[n].nbr == p.vector then best == Some(p.via)
        else exists k: nat :: LastUsable(services, list[..n], k, p)
  {
    var n, best := |list| - 1, BestFit(services, list[|list|-1].interfaces);
    if best.Some? && list[n].nbr == p.vector {
      if best == Some(p.via) { assert LastUsable(services, list, n, p); }
    } else {
      forall k: nat | LastUsable(services, list, k, p) ensures LastUsable(services, list[..n], k, p) {}
      forall k: nat | LastUsable(services, list[..n], k, p) ensures LastUsable(services, list, k, p) {
        assert list[k] == list[..n][k];
        forall j | k < j < n && list[j].nbr == p.vector ensures BestFit(services, list[j].interfaces) == None {
          assert list[..n][j] == list[j];
        }
      }
    }
  }

  // ---- Reconnection ----------------------------------------------------------------------------

  /** The supplement of a reconnect message: own unit, module and role, own
      contact summary and declaration, and the numbers of the modules known. */
  function Supplement(unit: int, mod: int, role: int, c: Contact, d: Declaration, known: seq<byte>): (s: seq<byte>) {
    [High(unit), Low(unit), Low(mod), Low(role)]
    + (ContactBytes(c) + (DeclarationBytes(d) + ([Low(|known|)] + known)))
  }

  datatype Reconnect = Reconnect(mod: byte, ept: seq<byte>, known: seq<byte>)

  /** The numbers of the modules known, which must be all that is left. */
  function ReadCensus(s: seq<byte>): (r: Option<seq<byte>>) {
    if s == [] || |s| - 1 != s[0] then None else Some(s[1..])
  }

  function ReadBody(mod: byte, s: seq<byte>): (r: Option<Reconnect>) {
    match SkipContact(s)
    case None => None
    case Some(p) => ReadRest(mod, p.value, p.rest)
  }

  /** What follows the contact summary: a declaration and the census. */
  function ReadRest(mod: byte, ept: seq<byte>, s: seq<byte>): (r: Option<Reconnect>) {
    match SkipDeclaration(s)
    case None => None
    case Some(rest) =>
      match ReadCensus(rest) case None => None case Some(known) => Some(Reconnect(mod, ept, known))
  }

  /** The registrar's reading of the supplement; none if it is malformed. */
  function ReadReconnect(s: seq<byte>): (r: Option<Reconnect>) {
    if |s| < 4 then None else ReadBody(s[2], s[4..])
  }

  lemma DeclarationSkipped(d: Declaration, rest: seq<byte>)
    requires FitDeclaration(d)
    ensures SkipDeclaration(DeclarationBytes(d) + rest) == Some(rest)
  {
    SkipAgrees(DeclarationBytes(d) + rest);
    DeclarationRoundTrip(d, rest);
  }

  lemma CensusRoundTrip(known: seq<byte>)
    requires |known| <= 255
    ensures ReadCensus([Low(|known|)] + known) == Some(known)
  {
    var n: byte := |known|;
    assert Low(|known|) == n;
    ConsParts(n, known);
  }

  lemma BodyRoundTrip(mod: byte, c: Contact, d: Declaration, known: seq<byte>)
    requires FitContact(c) && FitDeclaration(d) && |known| <= 255
    ensures ReadBody(mod, ContactBytes(c) + (DeclarationBytes(d) + ([Low(|known|)] + known)))
      == Some(Reconnect(mod, c.ept, known))
  {
    var tail := [Low(|known|)] + known;
    ContactRoundTrip(c, DeclarationBytes(d) + tail, false);
    DeclarationSkipped(d, tail);
    CensusRoundTrip(known);
  }

  /** A reconnect message that a module builds is never taken for malformed. */
  lemma ReconnectRoundTrip(unit: int, mod: int, role: int, c: Contact, d: Declaration, known: seq<byte>)
    requires FitContact(c) && FitDeclaration(d) && |known| <= 255 && 0 <= mod < 256
    ensures ReadReconnect(Supplement(unit, mod, role, c, d, known)) == Some(Reconnect(mod, c.ept, known))
  {
    var id: seq<byte> := [High(unit), Low(unit), Low(mod), Low(role)];
    var body := ContactBytes(c) + (DeclarationBytes(d) + ([Low(|known|)] + known));
    assert (id + body)[4..] == body && (id + body)[2] == mod;
    BodyRoundTrip(mod, c, d, known);
  }
}
