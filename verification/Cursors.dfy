/** The loops that move cursors through buffers: writing, parsing and skipping
    contact summaries and declarations. */
module Cursors {
  import opened Lists
  import opened Octets
  import opened Resync
  import opened Codec

  // ---- Writing ---------------------------------------------------------------------------------

  /** t with the octets from k on replaced by s. */
  function Overwritten(t: seq<byte>, k: nat, s: seq<byte>): (r: seq<byte>)
    requires k + |s| <= |t|
    ensures |r| == |t|
  {
    t[..k] + s + t[k + |s|..]
  }

  lemma OverwriteTwice(t: seq<byte>, k: nat, s: seq<byte>, s': seq<byte>)
    requires k + |s| + |s'| <= |t|
    ensures Overwritten(Overwritten(t, k, s), k + |s|, s') == Overwritten(t, k, s + s')
  {
  }

  /** memcpy, and the cursor moved behind what was copied. */
  method Put(buf: array<byte>, cursor: nat, s: seq<byte>) returns (c: nat)
    requires cursor + |s| <= buf.Length
    modifies buf
    ensures buf[..] == Overwritten(old(buf[..]), cursor, s) && c == cursor + |s|
  {
    forall i | 0 <= i < |s| { buf[cursor + i] := s[i]; }
    c := cursor + |s|;
    assert buf[..] == buf[..cursor] + buf[cursor..c] + buf[c..];
    assert buf[cursor..c] == s;
  }

  method PutTwo(buf: array<byte>, cursor: nat, p: seq<byte>, q: seq<byte>) returns (c: nat)
    requires cursor + |p| + |q| <= buf.Length
    modifies buf
    ensures buf[..] == Overwritten(old(buf[..]), cursor, p + q) && c == cursor + |p| + |q|
  {
    ghost var was := buf[..];
    c := Put(buf, cursor, p);
    c := Put(buf, c, q);
    OverwriteTwice(was, cursor, p, q);
  }

  method PutFour(buf: array<byte>, cursor: nat, p: seq<byte>, q: seq<byte>, r: seq<byte>, s: seq<byte>)
    returns (c: nat)
    requires cursor + |p| + |q| + |r| + |s| <= buf.Length
    modifies buf
    ensures buf[..] == Overwritten(old(buf[..]), cursor, p + q + r + s) && c == cursor + |p| + |q| + |r| + |s|
  {
    ghost var was := buf[..];
    c := PutTwo(buf, cursor, p, q);
    c := PutTwo(buf, c, r, s);
    OverwriteTwice(was, cursor, p + q, r + s);
    Assoc(p + q, r, s);
  }

  method LoadAssertion(buf: array<byte>, cursor: nat, a: Assertion) returns (c: nat)
    requires cursor + ASSERTION_LEN <= buf.Length
    modifies buf
    ensures buf[..] == Overwritten(old(buf[..]), cursor, AssertionBytes(a)) && c == cursor + ASSERTION_LEN
  {
    var subject: seq<byte> := [High(a.subject), Low(a.subject)];
    var continuum: seq<byte> := [High(a.continuum) % 128, Low(a.continuum)];
    var unit: seq<byte> := [High(a.unit), Low(a.unit)];
    var others: seq<byte> := [Low(a.role), Low(a.vector * 16 + a.priority % 16), Low(a.flowLabel)];
    assert AssertionBytes(a) == subject + continuum + unit + others;
    c := PutFour(buf, cursor, subject, continuum, unit, others);
  }

  /** One of the two loops of loadDeclaration, and the count before it. */
  method LoadAssertions(buf: array<byte>, cursor: nat, list: seq<Assertion>) returns (c: nat)
    requires cursor + 2 + |list| * ASSERTION_LEN <= buf.Length
    modifies buf
    ensures buf[..] == Overwritten(old(buf[..]), cursor, [High(|list|), Low(|list|)] + AssertionsBytes(list))
    ensures c == cursor + 2 + |list| * ASSERTION_LEN
  {
    ghost var was := buf[..];
    var count: seq<byte> := [High(|list|), Low(|list|)];
    c := Put(buf, cursor, count);
    c := LoadEach(buf, c, list);
    OverwriteTwice(was, cursor, count, AssertionsBytes(list));
  }

  method LoadEach(buf: array<byte>, cursor: nat, list: seq<Assertion>) returns (c: nat)
    requires cursor + |list| * ASSERTION_LEN <= buf.Length
    modifies buf
    ensures buf[..] == Overwritten(old(buf[..]), cursor, AssertionsBytes(list))
    ensures c == cursor + |list| * ASSERTION_LEN
  {
    ghost var was := buf[..];
    ghost var done: seq<byte> := [];
    c := cursor;
    assert Overwritten(was, cursor, []) == was;
    assert list[0..] == list;
    for k := 0 to |list|
      invariant c == cursor + |done| && |done| == k * ASSERTION_LEN
      invariant buf[..] == Overwritten(was, cursor, done)
      invariant done + AssertionsBytes(list[k..]) == AssertionsBytes(list)
    {
      Assoc(done, AssertionBytes(list[k]), AssertionsBytes(list[k+1..]));
      assert list[k..][1..] == list[k+1..];
      OverwriteTwice(was, cursor, done, AssertionBytes(list[k]));
      c := LoadAssertion(buf, c, list[k]);
      done := done + AssertionBytes(list[k]);
    }
    WithNothing(done);
    assert list[|list|..] == [];
  }

  method LoadDeclaration(buf: array<byte>, cursor: nat, d: Declaration) returns (c: nat)
    requires cursor + |DeclarationBytes(d)| <= buf.Length
    modifies buf
    ensures buf[..] == Overwritten(old(buf[..]), cursor, DeclarationBytes(d))
    ensures c == cursor + |DeclarationBytes(d)|
  {
    ghost var was := buf[..];
    c := LoadAssertions(buf, cursor, d.subscriptions);
    c := LoadAssertions(buf, c, d.invitations);
    OverwriteTwice(was, cursor,
      [High(|d.subscriptions|), Low(|d.subscriptions|)] + AssertionsBytes(d.subscriptions),
      [High(|d.invitations|), Low(|d.invitations|)] + AssertionsBytes(d.invitations));
  }

  method LoadInterface(buf: array<byte>, cursor: nat, i: Interface, end: byte) returns (c: nat)
    requires cursor + |i.ts| + 1 + |i.ept| + 1 <= buf.Length
    modifies buf
    ensures buf[..] == Overwritten(old(buf[..]), cursor, i.ts + [EQUALS] + i.ept + [end])
    ensures c == cursor + |i.ts| + 1 + |i.ept| + 1
  {
    c := PutFour(buf, cursor, i.ts, [EQUALS], i.ept, [end]);
  }

  lemma InterfacesStep(done: seq<byte>, i: Interface, end: byte, others: seq<byte>)
    ensures done + (i.ts + ([EQUALS] + (i.ept + ([end] + others)))) ==
      done + (i.ts + [EQUALS] + i.ept + [end]) + others
  {
  }

  /** The octets of one interface in the list of a delivery vector. */
  ghost function Piece(i: Interface, end: byte): seq<byte> {
    i.ts + [EQUALS] + i.ept + [end]
  }

  lemma InterfacesNext(was: seq<byte>, cursor: nat, done: seq<byte>, list: seq<Interface>, end: byte)
    requires list != [] && end == (if |list| > 1 then COMMA else NUL)
    requires cursor + |done + InterfacesBytes(list)| <= |was|
    ensures done + InterfacesBytes(list) == (done + Piece(list[0], end)) + InterfacesBytes(list[1..])
    ensures cursor + |done| + |Piece(list[0], end)| <= |was|
    ensures Overwritten(Overwritten(was, cursor, done), cursor + |done|, Piece(list[0], end))
      == Overwritten(was, cursor, done + Piece(list[0], end))
  {
    InterfacesStep(done, list[0], end, InterfacesBytes(list[1..]));
    OverwriteTwice(was, cursor, done, Piece(list[0], end));
  }

  /** The loop over the interfaces of a delivery vector. */
  method LoadInterfaces(buf: array<byte>, cursor: nat, list: seq<Interface>) returns (c: nat)
    requires cursor + |InterfacesBytes(list)| <= buf.Length
    modifies buf
    ensures buf[..] == Overwritten(old(buf[..]), cursor, InterfacesBytes(list))
    ensures c == cursor + |InterfacesBytes(list)|
  {
    ghost var was := buf[..];
    ghost var done: seq<byte> := [];
    c := cursor;
    assert Overwritten(was, cursor, []) == was;
    assert list[0..] == list;
    for k := 0 to |list|
      invariant c == cursor + |done| && done + InterfacesBytes(list[k..]) == InterfacesBytes(list)
      invariant c <= buf.Length && buf[..] == Overwritten(was, cursor, done)
    {
      var end := if k + 1 < |list| then COMMA else NUL;
      assert list[k..][1..] == list[k+1..];
      InterfacesNext(was, cursor, done, list[k..], end);
      c := LoadInterface(buf, c, list[k], end);
      done := done + Piece(list[k], end);
    }
    WithNothing(done);
    assert list[|list|..] == [];
  }

  method LoadVector(buf: array<byte>, cursor: nat, v: Vector) returns (c: nat)
    requires cursor + |VectorBytes(v)| <= buf.Length
    modifies buf
    ensures buf[..] == Overwritten(old(buf[..]), cursor, VectorBytes(v)) && c == cursor + |VectorBytes(v)|
  {
    ghost var was := buf[..];
    var u1 := Low(|v.interfaces| % 16 + v.nbr * 16);
    c := Put(buf, cursor, [u1]);
    c := LoadInterfaces(buf, c, v.interfaces);
    OverwriteTwice(was, cursor, [u1], InterfacesBytes(v.interfaces));
  }

  lemma VectorsNext(was: seq<byte>, cursor: nat, done: seq<byte>, list: seq<Vector>)
    requires list != [] && cursor + |done + VectorsBytes(list)| <= |was|
    ensures done + VectorsBytes(list) == (done + VectorBytes(list[0])) + VectorsBytes(list[1..])
    ensures cursor + |done| + |VectorBytes(list[0])| <= |was|
    ensures Overwritten(Overwritten(was, cursor, done), cursor + |done|, VectorBytes(list[0]))
      == Overwritten(was, cursor, done + VectorBytes(list[0]))
  {
    Assoc(done, VectorBytes(list[0]), VectorsBytes(list[1..]));
    OverwriteTwice(was, cursor, done, VectorBytes(list[0]));
  }

  method LoadVectors(buf: array<byte>, cursor: nat, list: seq<Vector>) returns (c: nat)
    requires cursor + |VectorsBytes(list)| <= buf.Length
    modifies buf
    ensures buf[..] == Overwritten(old(buf[..]), cursor, VectorsBytes(list))
    ensures c == cursor + |VectorsBytes(list)|
  {
    ghost var was := buf[..];
    ghost var done: seq<byte> := [];
    c := cursor;
    assert Overwritten(was, cursor, []) == was;
    assert list[0..] == list;
    for k := 0 to |list|
      invariant c == cursor + |done| && done + VectorsBytes(list[k..]) == VectorsBytes(list)
      invariant c <= buf.Length && buf[..] == Overwritten(was, cursor, done)
    {
      assert list[k..][1..] == list[k+1..];
      VectorsNext(was, cursor, done, list[k..]);
      c := LoadVector(buf, c, list[k]);
      done := done + VectorBytes(list[k]);
    }
    WithNothing(done);
    assert list[|list|..] == [];
  }

  /** Writes exactly the octets that getContactSummaryLength allows for. */
  method LoadContactSummary(buf: array<byte>, cursor: nat, contact: Contact) returns (c: nat)
    requires cursor + ContactLength(contact) <= buf.Length
    modifies buf
    ensures buf[..] == Overwritten(old(buf[..]), cursor, ContactBytes(contact))
    ensures c == cursor + ContactLength(contact)
  {
    ghost var was := buf[..];
    var n := Low(|contact.vectors|);
    c := PutFour(buf, cursor, contact.ept, [NUL], [n], []);
    c := LoadVectors(buf, c, contact.vectors);
    OverwriteTwice(was, cursor, contact.ept + [NUL] + [n] + [], VectorsBytes(contact.vectors));
    assert contact.ept + [NUL] + [n] + [] + VectorsBytes(contact.vectors) == ContactBytes(contact);
  }

  // ---- Parsing ---------------------------------------------------------------------------------

  /** What is left to read at a cursor. */
  function From(text: seq<byte>, cursor: nat): (s: seq<byte>)
    requires cursor <= |text|
  {
    text[cursor..]
  }

  /** What was read before, in front of what is read next. */
  function Prepend<T>(front: seq<T>, r: Option<Parsed<seq<T>>>): Option<Parsed<seq<T>>> {
    match r case None => None case Some(p) => Some(Parsed(front + p.value, p.rest))
  }

  lemma PrependNothing<T>(r: Option<Parsed<seq<T>>>)
    ensures Prepend([], r) == r
  {
    if r.Some? { WithNothing(r.value.value); }
  }

  lemma PrependTwice<T>(a: seq<T>, b: seq<T>, r: Option<Parsed<seq<T>>>)
    ensures Prepend(a, Prepend(b, r)) == Prepend(a + b, r)
  {
    if r.Some? { Assoc(a, b, r.value.value); }
  }

  /** The loop of parseString, and each half of that of parseAmsEndpoint: finds
      the first a or b. */
  method Scan(text: seq<byte>, cursor: nat, a: byte, b: byte) returns (found: bool, end: nat)
    requires cursor <= |text|
    ensures found ==> cursor <= end < |text| && Split(From(text, cursor), a, b)
                        == Some(Parsed(text[cursor..end], From(text, end + 1)))
    ensures !found ==> Split(From(text, cursor), a, b) == None
  {
    end := cursor;
    PrependNothing(Split(From(text, cursor), a, b));
    assert text[cursor..cursor] == [];
    while end < |text| && text[end] != a && text[end] != b
      invariant cursor <= end <= |text|
      invariant Split(From(text, cursor), a, b) == Prepend(text[cursor..end], Split(From(text, end), a, b))
    {
      assert From(text, end)[1..] == From(text, end + 1);
      PrependTwice(text[cursor..end], [text[end]], Split(From(text, end + 1), a, b));
      assert text[cursor..end] + [text[end]] == text[cursor..end+1];
      end := end + 1;
    }
    found := end < |text|;
    if found {
      assert From(text, end)[1..] == From(text, end + 1);
      WithNothing(text[cursor..end]);
    }
  }

  method ParseAmsEndpoint(text: seq<byte>, cursor: nat) returns (r: Option<Interface>, c: nat)
    requires cursor <= |text|
    ensures r.Some? ==> c <= |text| && ParseEndpoint(From(text, cursor)) == Some(Parsed(r.value, From(text, c)))
    ensures r.None? ==> ParseEndpoint(From(text, cursor)) == None
  {
    var found, equals := Scan(text, cursor, EQUALS, EQUALS);
    c := cursor;
    if !found { return None, c; }
    var ended, end := Scan(text, equals + 1, COMMA, NUL);
    if !ended { return None, c; }
    r, c := Some(Interface(text[cursor..equals], text[equals+1..end])), end + 1;
  }

  method ParseDeliveryVector(text: seq<byte>, cursor: nat) returns (r: Option<Vector>, c: nat)
    requires cursor <= |text|
    ensures r.Some? ==> c <= |text| && ParseVector(From(text, cursor)) == Some(Parsed(r.value, From(text, c)))
    ensures r.None? ==> ParseVector(From(text, cursor)) == None
  {
    c := cursor;
    if cursor == |text| { return None, c; }
    var nbr, count := text[cursor] / 16, text[cursor] % 16;
    c := cursor + 1;
    ghost var all := ParseEndpoints(From(text, cursor + 1), count);
    assert From(text, cursor)[1..] == From(text, cursor + 1);
    PrependNothing(all);
    var list: seq<Interface> := [];
    while count > 0
      invariant 0 <= count < 16 && c <= |text|
      invariant all == Prepend(list, ParseEndpoints(From(text, c), count))
    {
      var i, c' := ParseAmsEndpoint(text, c);
      if i.None? { return None, c; }
      PrependTwice(list, [i.value], ParseEndpoints(From(text, c'), count - 1));
      list, c, count := list + [i.value], c', count - 1;
    }
    WithNothing(list);
    r := Some(Vector(nbr, list));
  }

  method ParseDeliveryVectorList(text: seq<byte>, cursor: nat, signed: bool) returns (r: Option<seq<Vector>>, c: nat)
    requires cursor <= |text|
    ensures r.Some? ==>
      c <= |text| && ParseVectorList(From(text, cursor), signed) == Some(Parsed(r.value, From(text, c)))
    ensures r.None? ==> ParseVectorList(From(text, cursor), signed) == None
  {
    c := cursor;
    if cursor == |text| { return None, c; }
    var count := PlainChar(signed, text[cursor]);
    c := cursor + 1;
    ghost var all := ParseVectors(From(text, cursor + 1), count);
    assert From(text, cursor)[1..] == From(text, cursor + 1);
    PrependNothing(all);
    var list: seq<Vector> := [];
    while count > 0
      invariant c <= |text| && all == Prepend(list, ParseVectors(From(text, c), count))
    {
      var v, c' := ParseDeliveryVector(text, c);
      if v.None? { return None, c; }
      PrependTwice(list, [v.value], ParseVectors(From(text, c'), count - 1));
      list, c, count := list + [v.value], c', count - 1;
    }
    WithNothing(list);
    r := Some(list);
  }

  method ParseAssertion(text: seq<byte>, cursor: nat) returns (r: Option<Assertion>, c: nat)
    requires cursor <= |text|
    ensures r.None? <==> |From(text, cursor)| < ASSERTION_LEN
    ensures r.Some? ==> r.value == ReadAssertion(From(text, cursor))
    ensures r.Some? ==> c == cursor + ASSERTION_LEN && From(text, cursor)[ASSERTION_LEN..] == From(text, c)
  {
    c := cursor;
    if |text| - cursor < ASSERTION_LEN { return None, c; }
    var vectorNbr, priority := text[cursor + 7] / 16, text[cursor + 7] % 16;
    r := Some(Assertion(S16(text[cursor], text[cursor+1]), text[cursor+6],
                        U16(text[cursor+2] % 128, text[cursor+3]), U16(text[cursor+4], text[cursor+5]),
                        vectorNbr, priority, text[cursor+8]));
    c := cursor + ASSERTION_LEN;
  }

  /** One of the two loops of processDeclaration, and the count before it. */
  method ParseAssertionList(text: seq<byte>, cursor: nat) returns (r: Option<seq<Assertion>>, c: nat)
    requires cursor <= |text|
    ensures r.Some? ==> c <= |text| && ParseList(From(text, cursor)) == Some(Parsed(r.value, From(text, c)))
    ensures r.None? ==> ParseList(From(text, cursor)) == None
  {
    c := cursor;
    if |text| - cursor < 2 { return None, c; }
    var count: int := U16(text[cursor], text[cursor + 1]);
    c := cursor + 2;
    ghost var all := ParseAssertions(From(text, c), count);
    assert From(text, cursor)[2..] == From(text, c);
    PrependNothing(all);
    var list: seq<Assertion> := [];
    while count > 0
      invariant 0 <= count && c <= |text| && all == Prepend(list, ParseAssertions(From(text, c), count))
    {
      var a, c' := ParseAssertion(text, c);
      if a.None? { return None, c; }
      PrependTwice(list, [a.value], ParseAssertions(From(text, c'), count - 1));
      list, c, count := list + [a.value], c', count - 1;
    }
    WithNothing(list);
    r := Some(list);
  }

  method ReadDeclaration(text: seq<byte>, cursor: nat) returns (r: Option<Declaration>, c: nat)
    requires cursor <= |text|
    ensures r.Some? ==> c <= |text| && ParseDeclaration(From(text, cursor)) == Some(Parsed(r.value, From(text, c)))
    ensures r.None? ==> ParseDeclaration(From(text, cursor)) == None
  {
    var subscriptions, invitations;
    subscriptions, c := ParseAssertionList(text, cursor);
    if subscriptions.None? { return None, c; }
    invitations, c := ParseAssertionList(text, c);
    if invitations.None? { return None, c; }
    r := Some(Declaration(subscriptions.value, invitations.value));
  }

  /** insertAmsEndpoint's search and insertion. */
  method InsertAmsEndpoint(points: seq<Point>, p: Point) returns (r: seq<Point>)
    ensures r == InsertPoint(points, p)
  {
    var k := 0;
    assert points[0..] == points;
    while k < |points| && points[k].vector < p.vector
      invariant k <= |points| && InsertPoint(points, p) == points[..k] + InsertPoint(points[k..], p)
    {
      assert points[k..][1..] == points[k+1..];
      Assoc(points[..k], [points[k]], InsertPoint(points[k+1..], p));
      assert points[..k] + [points[k]] == points[..k+1];
      k := k + 1;
    }
    if k < |points| && points[k].vector == p.vector {
      assert points[k..][1..] == points[k+1..];
      r := points[..k] + ([p] + points[k+1..]);
    } else {
      r := points[..k] + ([p] + points[k..]);
    }
  }

  // ---- Skipping --------------------------------------------------------------------------------

  /** One delivery vector, of count still to be skipped. */
  method SkipDeliveryVector(text: seq<byte>, cursor: nat, ghost count: nat) returns (ok: bool, c: nat)
    requires cursor <= |text| && count > 0
    ensures ok ==> c <= |text| && SkipVectors(From(text, cursor), count) == SkipVectors(From(text, c), count - 1)
    ensures !ok ==> SkipVectors(From(text, cursor), count) == None
  {
    c := cursor;
    if c == |text| { return false, c; }
    assert From(text, c)[1..] == From(text, c + 1);
    var found, end := Scan(text, c + 1, NUL, NUL);
    if !found { return false, c; }
    ok, c := true, end + 1;
  }

  method SkipDeliveryVectorList(text: seq<byte>, cursor: nat) returns (ok: bool, c: nat)
    requires cursor <= |text|
    ensures ok ==> c <= |text| && SkipVectorList(From(text, cursor)) == Some(From(text, c))
    ensures !ok ==> SkipVectorList(From(text, cursor)) == None
  {
    c := cursor;
    if cursor == |text| { return false, c; }
    var count: int := text[cursor];
    c := cursor + 1;
    ghost var all := SkipVectors(From(text, c), count);
    assert From(text, cursor)[1..] == From(text, c);
    while count > 0
      invariant 0 <= count && c <= |text| && all == SkipVectors(From(text, c), count)
    {
      ok, c := SkipDeliveryVector(text, c, count);
      if !ok { return; }
      count := count - 1;
    }
    ok := true;
  }

  /** One of the two halves of skipDeclaration. */
  method SkipAssertionList(text: seq<byte>, cursor: nat) returns (ok: bool, c: nat)
    requires cursor <= |text|
    ensures ok ==> c <= |text| && SkipList(From(text, cursor)) == Some(From(text, c))
    ensures !ok ==> SkipList(From(text, cursor)) == None
  {
    c := cursor;
    if |text| - cursor < 2 { return false, c; }
    var length: int := U16(text[cursor], text[cursor + 1]);
    ghost var end: nat := cursor + 2 + length * ASSERTION_LEN;
    SkipListEnds(text, cursor, end);
    c := cursor + 2;
    while length > 0
      invariant 0 <= length && c <= |text| && c + length * ASSERTION_LEN == end
    {
      if |text| - c < ASSERTION_LEN { return false, c; }
      c, length := c + ASSERTION_LEN, length - 1;
    }
    ok := true;
  }

  lemma SkipListEnds(text: seq<byte>, cursor: nat, end: nat)
    requires cursor + 2 <= |text| && end == cursor + 2 + U16(text[cursor], text[cursor + 1]) * ASSERTION_LEN
    ensures SkipList(From(text, cursor)) == if end <= |text| then Some(From(text, end)) else None
  {
    var s := From(text, cursor);
    assert s[0] == text[cursor] && s[1] == text[cursor + 1] && |s| == |text| - cursor;
    if end <= |text| { assert s[end - cursor..] == From(text, end); }
  }

  method SkipWholeDeclaration(text: seq<byte>, cursor: nat) returns (ok: bool, c: nat)
    requires cursor <= |text|
    ensures ok ==> c <= |text| && SkipDeclaration(From(text, cursor)) == Some(From(text, c))
    ensures !ok ==> SkipDeclaration(From(text, cursor)) == None
  {
    ok, c := SkipAssertionList(text, cursor);
    if ok { ok, c := SkipAssertionList(text, c); }
  }

  /** The checks that a registrar makes of a reconnect message's supplement. */
  method CheckReconnect(text: seq<byte>) returns (r: Option<Reconnect>)
    ensures r == ReadReconnect(text)
  {
    if |text| < 4 { return None; }
    r := CheckBody(text, 4, text[2]);
  }

  method CheckBody(text: seq<byte>, cursor: nat, mod: byte) returns (r: Option<Reconnect>)
    requires cursor <= |text|
    ensures r == ReadBody(mod, From(text, cursor))
  {
    var contact := CheckContact(text, cursor);
    if contact.None? { return None; }
    r := CheckRest(text, contact.value.1, mod, contact.value.0);
  }

  /** The endpoint name, and the cursor behind the contact summary. */
  method CheckContact(text: seq<byte>, cursor: nat) returns (r: Option<(seq<byte>, nat)>)
    requires cursor <= |text|
    ensures r.None? <==> SkipContact(From(text, cursor)).None?
    ensures r.Some? ==> r.value.1 <= |text|
    ensures r.Some? ==> SkipContact(From(text, cursor)) == Some(Parsed(r.value.0, From(text, r.value.1)))
  {
    var found, end := Scan(text, cursor, NUL, NUL);
    if !found { return None; }
    var ok, c := SkipDeliveryVectorList(text, end + 1);
    r := if ok then Some((text[cursor..end], c)) else None;
  }

  method CheckRest(text: seq<byte>, cursor: nat, mod: byte, ept: seq<byte>) returns (r: Option<Reconnect>)
    requires cursor <= |text|
    ensures r == ReadRest(mod, ept, From(text, cursor))
  {
    var ok, c := SkipWholeDeclaration(text, cursor);
    if !ok { return None; }
    var known := CheckCensus(text, c);
    r := if known.None? then None else Some(Reconnect(mod, ept, known.value));
  }

  method CheckCensus(text: seq<byte>, cursor: nat) returns (r: Option<seq<byte>>)
    requires cursor <= |text|
    ensures r == ReadCensus(From(text, cursor))
  {
    if cursor == |text| || |text| - cursor - 1 != text[cursor] { return None; }
    assert From(text, cursor)[1..] == text[cursor+1..];
    r := Some(text[cursor+1..]);
  }
}
