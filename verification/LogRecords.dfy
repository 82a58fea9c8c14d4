// Byte layout of one log record and of the circular byte buffer that holds it.

module LogRecords {
  import opened Arith

  const HDR_SIZE := 12
  const MAX_DATA_SIZE := 255
  const LOG_TAG_SEAL: Byte := 0xAC
  const LOG_TAG_FREE: Byte := 0xDF

  /** What one call of the logger asks to be stored; `ts` is the 48-bit timestamp. */
  datatype Record = Record(dom: Byte, ent: Byte, lvl: Byte, ts: nat, payload: seq<Byte>) {
    ghost predicate Wf() {
      ts < 0x1_0000_0000_0000 && 1 <= |payload| <= MAX_DATA_SIZE
    }
  }

  function AlignUp8(n: nat): (r: nat)
    ensures n <= r < n + 8 && r % 8 == 0
  {
    (n + 7) / 8 * 8
  }

  function Size(r: Record): nat {
    AlignUp8(HDR_SIZE + |r.payload|)
  }

  function Pad(r: Record): nat {
    Size(r) - (HDR_SIZE + |r.payload|)
  }

  function Zeros(n: nat): (z: seq<Byte>)
    ensures |z| == n && forall i :: 0 <= i < n ==> z[i] == 0
  {
    seq(n, i => 0)
  }

  /** The `n` little-endian bytes of a word. */
  function Le(x: nat, n: nat): (b: seq<Byte>)
    ensures |b| == n
  {
    if n == 0 then [] else [x % 256] + Le(x / 256, n - 1)
  }

  function FromLe(b: seq<Byte>): nat {
    if b == [] then 0 else b[0] + 256 * FromLe(b[1..])
  }

  function Pow256(n: nat): nat {
    if n == 0 then 1 else 256 * Pow256(n - 1)
  }

  lemma {:induction false} LeRoundTrip(x: nat, n: nat)
    requires x < Pow256(n)
    ensures FromLe(Le(x, n)) == x
  {
    if n > 0 {
      LeRoundTrip(x / 256, n - 1);
    }
  }

  function Header(tag: Byte, r: Record): (h: seq<Byte>)
    requires r.Wf()
    ensures |h| == HDR_SIZE
  {
    [tag, r.lvl, r.dom, r.ent, |r.payload|, Pad(r)] + Le(r.ts / 0x1_0000_0000, 2) + Le(r.ts % 0x1_0000_0000, 4)
  }

  /** The bytes of a sealed record, header first, padded with zeros to a multiple of eight. */
  function Encode(r: Record): (e: seq<Byte>)
    requires r.Wf()
    ensures |e| == Size(r)
  {
    Header(LOG_TAG_SEAL, r) + r.payload + Zeros(Pad(r))
  }

  /** The 48-bit timestamp that a reader rebuilds from header bytes 6 to 11. */
  function TsOf(h: seq<Byte>): nat
    requires |h| >= HDR_SIZE
  {
    FromLe(h[6..8]) * 0x1_0000_0000 + FromLe(h[8..12])
  }

  /** What a reader makes of the bytes of one record. */
  function Decode(e: seq<Byte>): Record
    requires |e| >= HDR_SIZE && HDR_SIZE + e[4] <= |e|
  {
    Record(e[2], e[3], e[1], TsOf(e), e[HDR_SIZE..HDR_SIZE + e[4]])
  }

  /** Round trip: decoding an encoded record gives the record back, whatever its fields. */
  lemma EncodeDecode(r: Record)
    requires r.Wf()
    ensures Encode(r)[0] == LOG_TAG_SEAL
    ensures Encode(r)[4] == |r.payload| && HDR_SIZE + Encode(r)[4] + Encode(r)[5] == Size(r)
    ensures Decode(Encode(r)) == r
  {
    var hi, lo := r.ts / 0x1_0000_0000, r.ts % 0x1_0000_0000;
    assert Pow256(2) == 0x1_0000 && Pow256(4) == 0x1_0000_0000;
    LeRoundTrip(hi, 2);
    LeRoundTrip(lo, 4);
    assert Encode(r)[6..8] == Le(hi, 2) && Encode(r)[8..12] == Le(lo, 4);
    assert Encode(r)[HDR_SIZE..HDR_SIZE + |r.payload|] == r.payload;
  }

  // ---- The circular buffer: the first `size` bytes of `b`; the bytes after it are guard words ----

  /** Buffer index that is `i` bytes after index `h`. */
  function At(size: nat, h: nat, i: nat): (k: nat)
    requires h < size && i <= size
    ensures k < size
  {
    if h + i < size then h + i else h + i - size
  }

  /** Distance from index `h` forward to index `k`. */
  function Dist(size: nat, h: nat, k: nat): (d: nat)
    requires h < size && k < size
    ensures d < size && At(size, h, d) == k
  {
    if h <= k then k - h else size - h + k
  }

  /** `b` with `s` written from index `h` on, wrapping at `size`. */
  function Put(b: seq<Byte>, size: nat, h: nat, s: seq<Byte>): (r: seq<Byte>)
    requires h < size <= |b| && |s| <= size
    ensures |r| == |b|
  {
    seq(|b|, k requires 0 <= k < |b| =>
      if k < size && Dist(size, h, k) < |s| then s[Dist(size, h, k)] else b[k])
  }

  /** `b` holds `s` from index `h` on. */
  ghost predicate Holds(b: seq<Byte>, size: nat, h: nat, s: seq<Byte>)
    requires h < size <= |b| && |s| <= size
  {
    forall i :: 0 <= i < |s| ==> b[At(size, h, i)] == s[i]
  }

  /** A write is read back, and every byte outside it, guard words included, stays as it was. */
  lemma PutHolds(b: seq<Byte>, size: nat, h: nat, s: seq<Byte>)
    requires h < size <= |b| && |s| <= size
    ensures Holds(Put(b, size, h, s), size, h, s)
    ensures forall k :: size <= k < |b| ==> Put(b, size, h, s)[k] == b[k]
    ensures forall i :: |s| <= i < size ==> Put(b, size, h, s)[At(size, h, i)] == b[At(size, h, i)]
  {
    forall i | 0 <= i < size
      ensures Dist(size, h, At(size, h, i)) == i
    {
    }
  }

  lemma PutLinear(b: seq<Byte>, size: nat, h: nat, s: seq<Byte>)
    requires h < size <= |b| && h + |s| <= size
    ensures Put(b, size, h, s) == b[..h] + s + b[h + |s|..]
  {
  }

  lemma PutWrapped(b: seq<Byte>, size: nat, h: nat, s: seq<Byte>, t: seq<Byte>)
    requires h < size <= |b| && |s| == size - h && |s + t| <= size
    ensures Put(Put(b, size, h, s), size, 0, t) == Put(b, size, h, s + t)
  {
  }

  /** Writing `t` at offset `j` of an earlier write `s`, reaching at least its end. */
  lemma PutOver(b: seq<Byte>, size: nat, h: nat, s: seq<Byte>, j: nat, t: seq<Byte>)
    requires h < size <= |b| && |s| <= size && j <= |s| <= j + |t| <= size
    ensures Put(Put(b, size, h, s), size, At(size, h, j), t) == Put(b, size, h, s[..j] + t)
  {
    var m, u := At(size, h, j), s[..j] + t;
    forall k | 0 <= k < size
      ensures Put(Put(b, size, h, s), size, m, t)[k] == Put(b, size, h, u)[k]
    {
      assert Dist(size, m, k) == if Dist(size, h, k) < j then Dist(size, h, k) - j + size else Dist(size, h, k) - j;
    }
  }

  lemma PutFirst(b: seq<Byte>, size: nat, h: nat, s: seq<Byte>, x: Byte)
    requires h < size <= |b| && 0 < |s| <= size
    ensures Put(b, size, h, s)[h := x] == Put(b, size, h, s[0 := x])
  {
  }

  /** Zeros are written one by one, the last one first. */
  lemma ZerosFrom(b: seq<Byte>, size: nat, h: nat, n: nat)
    requires h < size <= |b| && 0 < n < size
    ensures Put(b, size, h, Zeros(n)) == Put(b, size, At(size, h, 1), Zeros(n - 1))[h := 0]
    ensures Put(b, size, h, Zeros(0)) == b
  {
    var m := At(size, h, 1);
    forall k | 0 <= k < size && k != h
      ensures Dist(size, h, k) == Dist(size, m, k) + 1
    {
    }
    assert Dist(size, m, h) == size - 1 && Dist(size, h, h) == 0;
  }

  /** Up to three bytes set to zero, the last one first. */
  function Zeroed(b: seq<Byte>, size: nat, h: nat, n: nat): seq<Byte>
    requires h < size <= |b| && size >= 3
  {
    var b2 := if n == 3 then b[At(size, h, 2) := 0] else b;
    var b1 := if n == 2 || n == 3 then b2[At(size, h, 1) := 0] else b2;
    if 1 <= n <= 3 then b1[h := 0] else b1
  }

  lemma ZeroedIs(b: seq<Byte>, size: nat, h: nat, n: nat)
    requires h < size <= |b| && size > 3
    ensures Zeroed(b, size, h, n) == if n <= 3 then Put(b, size, h, Zeros(n)) else b
  {
    ZerosFrom(b, size, h, 1);
    if n == 2 || n == 3 {
      var m := At(size, h, 1);
      ZerosFrom(b, size, h, n);
      ZerosFrom(b, size, m, n - 1);
      if n == 3 {
        ZerosFrom(b, size, At(size, h, 2), 1);
      } else {
        ZerosFrom(b, size, m, 1);
      }
    }
  }
}
