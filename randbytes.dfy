/**
 * initRandBytes of cmd/root.go: `n` bytes filled eight at a time with the
 * little-endian bytes of a 64-bit value, the seed `v`, or a fresh
 * `rand.Uint64()` for every chunk when the seed is 0. The random values are
 * a parameter: `draws(m)` is the value of the `m`-th call.
 */
module RandBytes {
  import opened Base64

  type uint64 = x: int | 0 <= x < 0x1_0000_0000_0000_0000

  /** The `w` low bytes of `x`, least significant first, as binary.LittleEndian writes them. */
  function LittleEndian(x: nat, w: nat): (b: seq<byte>)
    ensures |b| == w
  {
    if w == 0 then [] else [x % 256] + LittleEndian(x / 256, w - 1)
  }

  function Pow256(w: nat): nat {
    if w == 0 then 1 else 256 * Pow256(w - 1)
  }

  /** The number that bytes stand for, least significant first, as binary.LittleEndian reads them. */
  function ValueOf(b: seq<byte>): nat {
    if b == [] then 0 else b[0] + 256 * ValueOf(b[1..])
  }

  /** Reading back what was written gives the value, when it fits the width. */
  lemma {:induction false} LittleEndianRoundTrip(x: nat, w: nat)
    requires x < Pow256(w)
    ensures ValueOf(LittleEndian(x, w)) == x
  {
    if w > 0 {
      assert x / 256 < Pow256(w - 1);
      LittleEndianRoundTrip(x / 256, w - 1);
      assert LittleEndian(x, w)[1..] == LittleEndian(x / 256, w - 1);
    }
  }

  /** The value behind chunk `m`: the seed, or the `m`-th draw when the seed is 0. */
  function Chunk(v: uint64, draws: nat -> uint64, m: nat): uint64 {
    if v == 0 then draws(m) else v
  }

  /** The bytes of the first `chunks` chunks. */
  function Chunks(chunks: nat, v: uint64, draws: nat -> uint64): (k: seq<byte>)
    ensures |k| == 8 * chunks
  {
    if chunks == 0 then [] else Chunks(chunks - 1, v, draws) + LittleEndian(Chunk(v, draws, chunks - 1), 8)
  }

  /** binary.LittleEndian.PutUint64 on `k[i:i+8]`: those eight bytes become `x`'s, the others stay. */
  method PutUint64(k: array<byte>, i: nat, x: uint64)
    requires i + 8 <= k.Length
    modifies k
    ensures k[..] == old(k[..i]) + LittleEndian(x, 8) + old(k[i + 8..])
  {
    ghost var le := LittleEndian(x, 8);
    var y: nat := x;
    for j := 0 to 8
      invariant forall t :: 0 <= t < k.Length && !(i <= t < i + j) ==> k[t] == old(k[t])
      invariant forall t :: 0 <= t < j ==> k[i + t] == le[t]
      invariant LittleEndian(y, 8 - j) == le[j..]
    {
      assert le[j..][1..] == le[j + 1..];
      k[i + j] := y % 256;
      y := y / 256;
    }
    assert k[..] == old(k[..i]) + le + old(k[i + 8..]);
  }

  /** initRandBytes: a zeroed slice of `n` bytes, then one chunk per eight bytes. */
  method InitRandBytes(n: nat, v: uint64, draws: nat -> uint64) returns (k: array<byte>)
    requires n % 8 == 0
    ensures k.Length == n && k[..] == Chunks(n / 8, v, draws)
  {
    k := new byte[n](_ => 0);
    var i := 0;
    while i < n
      invariant i % 8 == 0 && i <= n
      invariant k[..i] == Chunks(i / 8, v, draws)
    {
      var cv := v;
      if cv == 0 {
        cv := draws(i / 8);
      }
      PutUint64(k, i, cv);
      assert k[..i + 8] == k[..i] + LittleEndian(cv, 8);
      i := i + 8;
    }
    assert k[..] == k[..n];
  }

  /** Chunk `m` of the bytes is the little-endian form of its value. */
  lemma {:induction false} ChunkAt(chunks: nat, v: uint64, draws: nat -> uint64, m: nat)
    requires m < chunks
    ensures Chunks(chunks, v, draws)[8 * m..8 * m + 8] == LittleEndian(Chunk(v, draws, m), 8)
  {
    var front := Chunks(chunks - 1, v, draws);
    if m < chunks - 1 {
      ChunkAt(chunks - 1, v, draws, m);
      assert Chunks(chunks, v, draws)[8 * m..8 * m + 8] == front[8 * m..8 * m + 8];
    } else {
      assert Chunks(chunks, v, draws)[8 * m..] == LittleEndian(Chunk(v, draws, m), 8);
    }
  }

  /**
   * Every eight bytes read back as the chunk's value: with a seed other than
   * 0, that seed every time; with 0, the draws in order.
   */
  lemma ChunksDecode(chunks: nat, v: uint64, draws: nat -> uint64, m: nat)
    requires m < chunks
    ensures ValueOf(Chunks(chunks, v, draws)[8 * m..8 * m + 8]) == (if v != 0 then v else draws(m))
  {
    ChunkAt(chunks, v, draws, m);
    assert Pow256(8) == 0x1_0000_0000_0000_0000;
    LittleEndianRoundTrip(Chunk(v, draws, m), 8);
  }
}
