/** Little-endian unsigned integers over byte buffers: the value of a byte
    string, its inverse writer, and the 8-byte `u64` reader and writer that
    Node's `readBigUInt64LE` / `writeBigUInt64LE` provide. */
module Bytes {
  import opened Solana
  import opened Outcomes
  import opened BnMath

  function Pow256(n: nat): (p: nat)
    ensures p >= 1
  {
    if n == 0 then 1 else 256 * Pow256(n - 1)
  }

  /** 2^64: one past the largest `u64`. */
  const U64Limit: nat := 0x1_0000_0000_0000_0000

  lemma Pow256Of8()
    ensures Pow256(8) == U64Limit
  {
    calc {
      Pow256(8);
      256 * 256 * 256 * 256 * Pow256(4);
      256 * 256 * 256 * 256 * 256 * 256 * 256 * 256 * Pow256(0);
    }
  }

  /** The unsigned value of `s` read least-significant byte first. */
  function LeValue(s: seq<byte>): nat {
    if |s| == 0 then 0 else s[0] as int + 256 * LeValue(s[1..])
  }

  /** The `n` low-order bytes of `v`, least significant first. */
  function LeBytes(v: nat, n: nat): (r: seq<byte>)
    ensures |r| == n
  {
    if n == 0 then [] else [(v % 256) as byte] + LeBytes(v / 256, n - 1)
  }

  lemma {:induction false} LeValueBound(s: seq<byte>)
    ensures LeValue(s) < Pow256(|s|)
  {
    if |s| > 0 {
      LeValueBound(s[1..]);
      assert LeValue(s[1..]) + 1 <= Pow256(|s| - 1);
      assert 256 * (LeValue(s[1..]) + 1) <= 256 * Pow256(|s| - 1);
    }
  }

  /** Writing `n` bytes keeps the value modulo 256^n: the writer is exact
      on every value that fits and truncates the rest. */
  lemma {:induction false} LeValueOfBytes(v: nat, n: nat)
    ensures LeValue(LeBytes(v, n)) == v % Pow256(n)
  {
    if n > 0 {
      var r := LeBytes(v, n);
      var p := Pow256(n - 1);
      assert r[1..] == LeBytes(v / 256, n - 1);
      LeValueOfBytes(v / 256, n - 1);
      var low := LeValue(r[1..]);
      assert low == (v / 256) % p;
      assert r[0] as int == v % 256;
      assert LeValue(r) == v % 256 + 256 * low;
      ModSplit(v, p);
      assert Pow256(n) == 256 * p;
    }
  }

  /** Peeling the low byte off a remainder modulo 256 * p. */
  lemma ModSplit(v: nat, p: nat)
    requires p >= 1
    ensures v % (256 * p) == v % 256 + 256 * ((v / 256) % p)
  {
    var q2, r2 := (v / 256) / p, (v / 256) % p;
    assert v / 256 == p * q2 + r2 && 0 <= r2 < p;
    assert v == 256 * (v / 256) + v % 256;
    assert v == (256 * p) * q2 + (256 * r2 + v % 256);
    assert 256 * r2 + v % 256 < 256 * p by {
      assert 256 * (r2 + 1) <= 256 * p;
    }
    DivModUnique(v, 256 * p, q2, 256 * r2 + v % 256);
  }

  lemma LeRoundTrip(v: nat, n: nat)
    requires v < Pow256(n)
    ensures LeValue(LeBytes(v, n)) == v
  {
    LeValueOfBytes(v, n);
    DivModUnique(v, Pow256(n), 0, v);
  }

  /** Every byte string is the encoding of its own value. */
  lemma {:induction false} LeBytesOfValue(s: seq<byte>)
    ensures LeBytes(LeValue(s), |s|) == s
  {
    if |s| > 0 {
      var v := LeValue(s);
      DivModUnique(v, 256, LeValue(s[1..]), s[0] as int);
      LeBytesOfValue(s[1..]);
      assert LeBytes(v, |s|) == [s[0]] + s[1..];
    }
  }

  /** The low `m` bytes of an encoding do not depend on its total width. */
  lemma {:induction false} LeBytesPrefix(v: nat, m: nat, k: nat)
    ensures LeBytes(v, m + k)[..m] == LeBytes(v, m)
  {
    if m > 0 {
      LeBytesPrefix(v / 256, m - 1, k);
      assert LeBytes(v, m + k)[..m] == [(v % 256) as byte] + LeBytes(v / 256, m - 1 + k)[..m - 1];
    }
  }

  /** `Buffer.writeBigUInt64LE`: eight little-endian bytes, or a range
      error for a value outside [0, 2^64). */
  function WriteU64(v: int): (r: Result<seq<byte>>)
    ensures r.Ok? <==> 0 <= v < U64Limit
    ensures r.Err? ==> r.error == ValueOutOfRange
    ensures r.Ok? ==> |r.value| == 8 && LeValue(r.value) == v
  {
    if 0 <= v < U64Limit then
      Pow256Of8();
      LeRoundTrip(v, 8);
      Ok(LeBytes(v, 8))
    else
      Err(ValueOutOfRange)
  }

  /** `Buffer.readBigUInt64LE(off)`: the eight bytes at `off`, or a range
      error when fewer than eight remain. */
  function ReadU64(buf: seq<byte>, off: nat): (r: Result<nat>)
    ensures r.Ok? <==> off + 8 <= |buf|
    ensures r.Err? ==> r.error == BufferOutOfRange
    ensures r.Ok? ==> r.value < U64Limit
    ensures r.Ok? ==> LeBytes(r.value, 8) == buf[off..off + 8]
  {
    if off + 8 <= |buf| then
      LeValueBound(buf[off..off + 8]);
      Pow256Of8();
      LeBytesOfValue(buf[off..off + 8]);
      Ok(LeValue(buf[off..off + 8]))
    else
      Err(BufferOutOfRange)
  }

  /** Reading back what the writer produced returns the written value. */
  lemma ReadWriteU64(v: int, pre: seq<byte>, post: seq<byte>)
    requires WriteU64(v).Ok?
    ensures ReadU64(pre + WriteU64(v).value + post, |pre|) == Ok(v)
  {
    var w := WriteU64(v).value;
    var buf := pre + w + post;
    assert buf[|pre|..|pre| + 8] == w;
  }

  /** Writing back the value of eight bytes reproduces them. */
  lemma WriteReadU64(s: seq<byte>)
    requires |s| == 8
    ensures WriteU64(LeValue(s)) == Ok(s)
  {
    Pow256Of8();
    LeValueBound(s);
    LeBytesOfValue(s);
  }
}
