/** Little-endian integers. */
module Codec {
  import opened Types

  function Power256(n: nat): (p: nat)
    ensures p > 0
  {
    if n == 0 then 1 else 256 * Power256(n - 1)
  }

  /** The n low bytes of v, least significant first. */
  function PutLE(v: nat, n: nat): (b: Bytes)
    ensures |b| == n
    decreases v, n
  {
    if n == 0 then [] else [v % 256] + PutLE(v / 256, n - 1)
  }

  function GetLE(b: Bytes): nat {
    if b == [] then 0 else b[0] + 256 * GetLE(b[1..])
  }

  /** Reading back gives the value modulo the width written. */
  lemma {:induction false} PutGet(v: nat, n: nat)
    ensures GetLE(PutLE(v, n)) == v % Power256(n)
    decreases n
  {
    if n > 0 {
      PutGet(v / 256, n - 1);
      assert PutLE(v, n)[1..] == PutLE(v / 256, n - 1);
      SplitModulo(v, Power256(n - 1));
    }
  }

  lemma SplitModulo(v: nat, m: nat)
    requires m > 0
    ensures v % (256 * m) == v % 256 + 256 * ((v / 256) % m)
  {
    var q, r := v / 256, v % 256;
    var a, b := q / m, q % m;
    assert v == 256 * (a * m + b) + r;
    assert v == (256 * m) * a + (256 * b + r);
    assert 0 <= 256 * b + r < 256 * m by { assert b <= m - 1; }
    ModuloIs(v, 256 * m, a, 256 * b + r);
  }

  lemma ModuloIs(v: nat, m: nat, a: nat, r: nat)
    requires m > 0 && v == m * a + r && r < m
    ensures v % m == r
  {
    var q := v / m;
    assert v == m * q + v % m;
    assert m * (q - a) == r - v % m;
    Between(m, q - a);
  }

  lemma Between(m: int, d: int)
    requires m > 0 && -m < m * d < m
    ensures m * d == 0
  {
  }

  lemma {:induction false} GetPut(b: Bytes)
    ensures PutLE(GetLE(b), |b|) == b && GetLE(b) < Power256(|b|)
    decreases |b|
  {
    if b != [] {
      GetPut(b[1..]);
      assert GetLE(b) % 256 == b[0] && GetLE(b) / 256 == GetLE(b[1..]);
    }
  }

  lemma Widths()
    ensures Power256(1) == 256 && Power256(2) == TWO_TO_16 && Power256(4) == TWO_TO_32 && Power256(8) == TWO_TO_64
  {
  }

  lemma RoundTrip16(v: nat)
    requires v < TWO_TO_16
    ensures GetLE(PutLE(v, 2)) == v
  {
    Widths();
    PutGet(v, 2);
  }

  lemma RoundTrip32(v: nat)
    requires v < TWO_TO_32
    ensures GetLE(PutLE(v, 4)) == v
  {
    Widths();
    PutGet(v, 4);
  }

  lemma RoundTrip64(v: nat)
    requires v < TWO_TO_64
    ensures GetLE(PutLE(v, 8)) == v
  {
    Widths();
    PutGet(v, 8);
  }
}
