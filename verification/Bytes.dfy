/** Bytes, byte strings and the little-endian integers of encoding/binary. */
module Bytes {

  type byte = n: nat | n < 256

  type Bytes = seq<byte>

  datatype Option<+T> = None | Some(value: T)

  /** 256 to the power n. */
  function Pow256(n: nat): (p: nat)
    ensures p >= 1
  {
    if n == 0 then 1 else 256 * Pow256(n - 1)
  }

  /** The n low-order bytes of v, least significant first; higher bytes are dropped. */
  function PutLE(v: nat, n: nat): (b: Bytes)
    ensures |b| == n
  {
    if n == 0 then [] else [v % 256] + PutLE(v / 256, n - 1)
  }

  /** The integer whose little-endian bytes are b. */
  function GetLE(b: Bytes): (v: nat)
    ensures v < Pow256(|b|)
  {
    if b == [] then 0 else b[0] + 256 * GetLE(b[1..])
  }

  /** Writing and reading back truncates to n bytes, as a Go integer conversion does. */
  lemma {:induction false} GetPutLE(v: nat, n: nat)
    ensures GetLE(PutLE(v, n)) == v % Pow256(n)
  {
    if n == 0 {
    } else {
      GetPutLE(v / 256, n - 1);
      var b := PutLE(v, n);
      assert b[1..] == PutLE(v / 256, n - 1);
      SplitMod(v, Pow256(n - 1));
    }
  }

  lemma SplitMod(v: nat, p: nat)
    requires p >= 1
    ensures v % (256 * p) == v % 256 + 256 * ((v / 256) % p)
  {
    var q, r := v / 256, v % 256;
    var qq, qr := q / p, q % p;
    assert v == 256 * (qq * p + qr) + r;
    assert v == qq * (256 * p) + (256 * qr + r) by {
      assert 256 * (qq * p) == qq * (256 * p);
    }
    DivModUnique(v, 256 * p, qq, 256 * qr + r);
  }

  lemma DivModUnique(v: int, d: int, q: int, r: int)
    requires d > 0 && 0 <= r < d && v == q * d + r
    ensures v % d == r && v / d == q
  {
    var q', r' := v / d, v % d;
    assert v == q' * d + r' && 0 <= r' < d;
    if q' < q {
      assert (q - q') * d >= d by { MulMono(q - q', d); }
    } else if q' > q {
      assert (q' - q) * d >= d by { MulMono(q' - q, d); }
    }
  }

  lemma MulMono(k: int, d: int)
    requires k >= 1 && d > 0
    ensures k * d >= d
  {
    assert k * d == (k - 1) * d + d;
  }

  lemma Pow256Values()
    ensures Pow256(4) == 0x1_0000_0000
    ensures Pow256(8) == 0x1_0000_0000_0000_0000
  {
    assert Pow256(1) == 256;
    assert Pow256(2) == 0x1_0000;
    assert Pow256(3) == 0x100_0000;
    assert Pow256(4) == 0x1_0000_0000;
    assert Pow256(5) == 0x100_0000_0000;
    assert Pow256(6) == 0x1_0000_0000_0000;
    assert Pow256(7) == 0x100_0000_0000_0000;
  }

  lemma ReadBack(v: nat, n: nat)
    requires v < Pow256(n)
    ensures GetLE(PutLE(v, n)) == v
  {
    GetPutLE(v, n);
    DivModUnique(v, Pow256(n), 0, v);
  }

  const MAX32: nat := 0x1_0000_0000

  const MAX64: nat := 0x1_0000_0000_0000_0000

  /** PutUint32 of a value converted to uint32. */
  function U32(v: nat): (b: Bytes)
    ensures |b| == 4
  {
    PutLE(v, 4)
  }

  /** PutUint64 of a value converted to uint64. */
  function U64(v: nat): (b: Bytes)
    ensures |b| == 8
  {
    PutLE(v, 8)
  }

  lemma U32Back(v: nat)
    requires v < MAX32
    ensures GetLE(U32(v)) == v
  {
    Pow256Values();
    hide PutLE, GetLE, Pow256, U32, U64;
    U32IsPut(v);
    ReadBack(v, 4);
  }

  lemma U64Back(v: nat)
    requires v < MAX64
    ensures GetLE(U64(v)) == v
  {
    Pow256Values();
    hide PutLE, GetLE, Pow256, U32, U64;
    U64IsPut(v);
    ReadBack(v, 8);
  }

  lemma U32IsPut(v: nat)
    ensures U32(v) == PutLE(v, 4)
  {
  }

  lemma U64IsPut(v: nat)
    ensures U64(v) == PutLE(v, 8)
  {
  }
}
