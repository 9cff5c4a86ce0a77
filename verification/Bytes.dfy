/** Bytes, little-endian numbers and the two spellings of a client id. */
module Bytes {
  type Byte = b: int | 0 <= b < 256
  type Bytes = seq<Byte>

  newtype uint32 = x: int | 0 <= x < 0x1_0000_0000

  // A UUID on the server; the client keeps the same sixteen bytes as a string of 32 hex digits.
  type Uuid = s: Bytes | |s| == 16 witness seq(16, _ => 0)

  function Zeros(n: nat): (z: Bytes)
    ensures |z| == n
    ensures forall i :: 0 <= i < n ==> z[i] == 0
  {
    seq(n, _ => 0)
  }

  function Min(a: int, b: int): int {
    if a < b then a else b
  }

  function Max(a: int, b: int): int {
    if a < b then b else a
  }

  /** `buffer` with `bytes` written over it from `offset` on. */
  function Overlay(buffer: Bytes, offset: nat, bytes: Bytes): (r: Bytes)
    requires offset + |bytes| <= |buffer|
    ensures |r| == |buffer|
  {
    buffer[..offset] + bytes + buffer[offset + |bytes|..]
  }

  // ---------- Little-endian numbers ----------

  function Pow256(k: nat): (p: nat)
    ensures p > 0
  {
    if k == 0 then 1 else 256 * Pow256(k - 1)
  }

  /** The `k` low bytes of `n`, least significant first. */
  function LE(n: nat, k: nat): (s: Bytes)
    ensures |s| == k
  {
    if k == 0 then [] else [n % 256] + LE(n / 256, k - 1)
  }

  function FromLE(s: Bytes): nat {
    if s == [] then 0 else s[0] + 256 * FromLE(s[1..])
  }

  lemma {:induction false} ModSplit(n: nat, p: nat)
    requires p > 0
    ensures n % (256 * p) == n % 256 + 256 * ((n / 256) % p)
  {
    var m := n / 256;
    var q, r := m / p, m % p;
    assert n == 256 * m + n % 256;
    assert m == p * q + r;
    calc {
      n;
      256 * (p * q + r) + n % 256;
      (256 * p) * q + (256 * r + n % 256);
    }
    var low := 256 * r + n % 256;
    assert 0 <= low < 256 * p;
    DivModUnique(n, 256 * p, q, low);
  }

  lemma DivModUnique(n: nat, d: nat, q: nat, r: nat)
    requires d > 0 && r < d && n == d * q + r
    ensures n / d == q && n % d == r
  {
    var q' := n / d;
    assert d * (q' - q) == r - n % d;
    MulBelow(d, q' - q);
  }

  lemma MulBelow(d: nat, k: int)
    requires 0 - d < d * k < d
    ensures k == 0
  {
  }

  /** Writing a number little-endian and reading it back keeps it modulo 256^k. */
  lemma {:induction false} FromLEofLE(n: nat, k: nat)
    ensures FromLE(LE(n, k)) == n % Pow256(k)
  {
    if k > 0 {
      FromLEofLE(n / 256, k - 1);
      ModSplit(n, Pow256(k - 1));
      assert LE(n, k)[1..] == LE(n / 256, k - 1);
    }
  }

  /** Reading bytes as a number and writing it back restores them; a number of `|s|` bytes is below 256^|s|. */
  lemma {:induction false} LEofFromLE(s: Bytes)
    ensures LE(FromLE(s), |s|) == s
    ensures FromLE(s) < Pow256(|s|)
  {
    if s != [] {
      LEofFromLE(s[1..]);
      var rest := FromLE(s[1..]);
      assert (s[0] + 256 * rest) % 256 == s[0];
      assert (s[0] + 256 * rest) / 256 == rest;
    }
  }

  lemma Pow256Values()
    ensures Pow256(0) == 1 && Pow256(1) == 0x100 && Pow256(2) == 0x1_0000 && Pow256(3) == 0x100_0000 && Pow256(4) == 0x1_0000_0000
  {
    assert Pow256(2) == 256 * Pow256(1);
    assert Pow256(3) == 256 * Pow256(2);
    assert Pow256(4) == 256 * Pow256(3);
  }

  /** The number is read back as it was written into a four-byte field. */
  predicate FourBytes(n: nat) {
    FromLE(LE(n, 4)) == n
  }

  lemma FourBytesBound(n: nat)
    ensures FourBytes(n) <==> n < 0x1_0000_0000
  {
    Pow256Values();
    FromLEofLE(n, 4);
    hide LE, FromLE, Pow256;
  }

  lemma DivDiv(n: nat, p: nat)
    requires p > 0
    ensures n / 256 / p == n / (256 * p)
  {
    var m := n / 256;
    var y, s := m / p, m % p;
    assert m == p * y + s;
    assert n == (256 * p) * y + (256 * s + n % 256) by {
      assert 256 * (p * y) == (256 * p) * y;
    }
    DivModUnique(n, 256 * p, y, 256 * s + n % 256);
  }

  /** The i-th byte written is the number shifted right by 8*i bits, masked to one byte. */
  lemma {:induction false} LEIndex(n: nat, k: nat, i: nat)
    requires i < k
    ensures LE(n, k)[i] == n / Pow256(i) % 256
  {
    if i > 0 {
      LEIndex(n / 256, k - 1, i - 1);
      DivDiv(n, Pow256(i - 1));
    }
  }

  lemma {:induction false} FromLESnoc(s: Bytes, b: Byte)
    ensures FromLE(s + [b]) == FromLE(s) + b * Pow256(|s|)
  {
    if s == [] {
      assert (s + [b])[1..] == [];
    } else {
      assert (s + [b])[1..] == s[1..] + [b];
      FromLESnoc(s[1..], b);
      var p := Pow256(|s| - 1);
      calc {
        FromLE(s + [b]);
        s[0] + 256 * (FromLE(s[1..]) + b * p);
        { assert 256 * (b * p) == b * (256 * p); }
        s[0] + 256 * FromLE(s[1..]) + b * (256 * p);
      }
    }
  }

  // ---------- Client ids ----------

  function HexDigit(d: nat): char
    requires d < 16
  {
    "0123456789abcdef"[d]
  }

  predicate IsHexDigit(c: char) {
    '0' <= c <= '9' || 'a' <= c <= 'f' || 'A' <= c <= 'F'
  }

  function DigitValue(c: char): (d: nat)
    requires IsHexDigit(c)
    ensures d < 16
  {
    if '0' <= c <= '9' then (c - '0') as nat
    else if 'a' <= c <= 'f' then (c - 'a') as nat + 10
    else (c - 'A') as nat + 10
  }

  function LowerCase(c: char): char {
    if 'A' <= c <= 'F' then c - 'A' + 'a' else c
  }

  predicate IsHexId(h: string) {
    |h| == 32 && forall i :: 0 <= i < 32 ==> IsHexDigit(h[i])
  }

  type HexId = h: string | IsHexId(h) witness seq(32, _ => '0')

  function HexText(id: Uuid): (h: string)
    ensures |h| == 32
  {
    seq(32, i requires 0 <= i < 32 => if i % 2 == 0 then HexDigit(id[i / 2] / 16) else HexDigit(id[i / 2] % 16))
  }

  lemma HexAt(id: Uuid, i: nat)
    requires i < 16
    ensures HexText(id)[2 * i] == HexDigit(id[i] / 16)
    ensures HexText(id)[2 * i + 1] == HexDigit(id[i] % 16)
  {
    assert 2 * i / 2 == i && (2 * i + 1) / 2 == i;
  }

  lemma HexIsHex(id: Uuid)
    ensures IsHexId(HexText(id))
  {
    forall i | 0 <= i < 32 ensures IsHexDigit(HexText(id)[i]) {
      HexAt(id, i / 2);
      DigitRoundTrip(id[i / 2] / 16);
      DigitRoundTrip(id[i / 2] % 16);
    }
  }

  function Hex(id: Uuid): (h: HexId) {
    HexIsHex(id);
    HexText(id)
  }

  lemma DigitRoundTrip(d: nat)
    requires d < 16
    ensures IsHexDigit(HexDigit(d)) && DigitValue(HexDigit(d)) == d
  {
  }

  lemma LowerCaseRoundTrip(c: char)
    requires IsHexDigit(c)
    ensures HexDigit(DigitValue(c)) == LowerCase(c)
  {
  }

  function UnHex(h: HexId): Uuid {
    seq(16, i requires 0 <= i < 16 => 16 * DigitValue(h[2 * i]) + DigitValue(h[2 * i + 1]))
  }

  lemma UnHexAt(h: HexId, i: nat)
    requires i < 16
    ensures UnHex(h)[i] / 16 == DigitValue(h[2 * i])
    ensures UnHex(h)[i] % 16 == DigitValue(h[2 * i + 1])
  {
  }

  /** Bytes to hex digits and back is the identity on sixteen-byte ids. */
  lemma UnHexOfHex(id: Uuid)
    ensures UnHex(Hex(id)) == id
  {
    forall i | 0 <= i < 16 ensures UnHex(Hex(id))[i] == id[i] {
      HexAt(id, i);
      DigitRoundTrip(id[i] / 16);
      DigitRoundTrip(id[i] % 16);
      UnHexAt(Hex(id), i);
    }
  }

  /** Hex digits to bytes and back only changes the case of the letters. */
  lemma HexOfUnHex(h: HexId)
    ensures forall i :: 0 <= i < 32 ==> Hex(UnHex(h))[i] == LowerCase(h[i])
  {
    forall i | 0 <= i < 32 ensures Hex(UnHex(h))[i] == LowerCase(h[i]) {
      var j := i / 2;
      HexAt(UnHex(h), j);
      UnHexAt(h, j);
      LowerCaseRoundTrip(h[2 * j]);
      LowerCaseRoundTrip(h[2 * j + 1]);
      assert i == 2 * j || i == 2 * j + 1;
    }
  }

  lemma HexInjective(a: Uuid, b: Uuid)
    ensures Hex(a) == Hex(b) ==> a == b
  {
    UnHexOfHex(a);
    UnHexOfHex(b);
  }
}
