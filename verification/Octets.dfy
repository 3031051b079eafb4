/** Octets and the integers carried in them. */
module Octets {
  type byte = x: int | 0 <= x < 256

  /** The low octet of an integer, and the low octet of it shifted by eight. */
  function Low(n: int): (b: byte) { n % 256 }

  function High(n: int): (b: byte) { n / 256 % 256 }

  function U16(hi: byte, lo: byte): (n: nat) { hi * 256 + lo }

  /** A 16-bit two's complement number. */
  function S16(hi: byte, lo: byte): (n: int) {
    if U16(hi, lo) < 0x8000 then U16(hi, lo) else U16(hi, lo) - 0x1_0000
  }

  /** An octet read as a plain char. */
  function PlainChar(signed: bool, b: byte): (n: int) {
    if signed && b >= 128 then b - 256 else b
  }

  lemma U16RoundTrip(n: int)
    ensures 0 <= n < 0x1_0000 ==> U16(High(n), Low(n)) == n
    ensures 0 <= n < 0x8000 ==> High(n) % 128 == High(n)
    ensures U16(High(n), Low(n)) == n % 0x1_0000
  {
    var q, r := n / 0x1_0000, n % 0x1_0000;
    assert n == q * 0x1_0000 + r;
    Divided(r, r / 256, r % 256);
    Divided(n, q * 256 + r / 256, r % 256);
    Divided(n / 256, q, r / 256);
  }

  lemma Divided(n: int, k: int, m: int)
    requires n == k * 256 + m && 0 <= m < 256
    ensures n / 256 == k && n % 256 == m
  {
  }

  lemma S16RoundTrip(n: int)
    requires -0x8000 <= n < 0x8000
    ensures S16(High(n), Low(n)) == n
  {
    U16RoundTrip(n);
  }

  lemma U16OfBytes(hi: byte, lo: byte)
    ensures High(U16(hi, lo)) == hi && Low(U16(hi, lo)) == lo
  {
  }

  /** Reading the low octet as a plain char loses nothing, but gives the number
      itself only if the octet is below 128 or a plain char is unsigned. */
  lemma PlainCharInjective(n: int, m: int, signed: bool)
    requires 0 <= n < 0x1_0000 && 0 <= m < 0x1_0000
    ensures High(n) * 256 + PlainChar(signed, Low(n)) == High(m) * 256 + PlainChar(signed, Low(m)) <==> n == m
    ensures High(n) * 256 + PlainChar(signed, Low(n)) == n <==> !signed || n % 256 < 128
  {
    U16RoundTrip(n);
    U16RoundTrip(m);
  }
}
