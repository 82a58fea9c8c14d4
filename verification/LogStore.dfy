// Where the records of the queue lie in the circular buffer.

module LogStore {
  import opened Arith
  import opened LogRecords
  import opened LogQueue

  // ---- Positions and buffer indices ----

  /** Masking with `size - 1` is the remainder modulo the power of two `size`. */
  lemma {:induction false} IndexIsRemainder(size: nat, pos: nat)
    requires size > 0
    ensures Index(size, pos) == pos % size
    decreases pos
  {
    if pos < size {
      ModIs(pos, 0, pos, size);
    } else {
      IndexIsRemainder(size, pos - size);
      var q, r := (pos - size) / size, (pos - size) % size;
      Successor(q, size);
      ModIs(pos, q + 1, r, size);
    }
  }

  lemma Successor(q: int, d: int)
    ensures (q + 1) * d == q * d + d
  {
  }

  lemma {:induction false} IndexTurns(size: nat, pos: nat, q: nat)
    requires size > 0
    ensures Index(size, pos + q * size) == Index(size, pos)
  {
    if q > 0 {
      Successor(q - 1, size);
      IndexTurns(size, pos, q - 1);
    }
  }

  lemma {:induction false} IndexPlus(size: nat, pos: nat, n: nat)
    requires size > 0 && n <= size
    ensures Index(size, pos + n) == At(size, Index(size, pos), n)
    decreases pos
  {
    if pos >= size {
      IndexPlus(size, pos - size, n);
    }
  }

  /** The word that holds a position has the same buffer index. */
  lemma {:induction false} IndexWrap(size: nat, pos: nat)
    requires SizeOk(size)
    ensures Index(size, Wrap(pos)) == Index(size, pos)
    decreases pos
  {
    if pos >= U32 {
      IndexWrap(size, pos - U32);
      var q := WrapsWhole(size);
      IndexTurns(size, pos - U32, q);
    }
  }

  /** Advancing a position modulo 2^32 advances its buffer index modulo the ring size. */
  lemma IndexAdd(size: nat, pos: nat, n: nat)
    requires SizeOk(size) && n <= size
    ensures Index(size, Wrap(pos + n)) == At(size, Index(size, pos), n)
  {
    IndexWrap(size, pos + n);
    IndexPlus(size, pos, n);
  }

  /** 2^32 is a whole number of ring lengths. */
  lemma WrapsWhole(size: nat) returns (q: nat)
    requires SizeOk(size)
    ensures U32 == q * size
  {
    U32IsPower();
    PowersDivide(size, U32);
    q := U32 / size;
  }

  /** The ring size is a multiple of eight, so an aligned position has an aligned index. */
  lemma {:induction false} IndexAligned(size: nat, pos: nat)
    requires size > 0 && size % 8 == 0 && pos % 8 == 0
    ensures Index(size, pos) % 8 == 0
    decreases pos
  {
    if pos >= size {
      IndexAligned(size, pos - size);
    }
  }

  /** The padding of a record at an aligned position never crosses the physical end of the buffer. */
  lemma PadFits(size: nat, start: nat, len: nat)
    requires SizeOk(size) && start < U32 && start % 8 == 0 && len <= MAX_DATA_SIZE
    ensures Index(size, Wrap(start + HDR_SIZE + len)) + (AlignUp8(HDR_SIZE + len) - (HDR_SIZE + len)) <= size
  {
    IndexAdd(size, start, HDR_SIZE + len);
    IndexAligned(size, start);
    AlignedStep(Index(size, start), size, HDR_SIZE + len, At(size, Index(size, start), HDR_SIZE + len));
  }

  /** The padding goes behind the record, before its physical end. */
  lemma PadBehind(b: seq<Byte>, size: nat, start: nat, s: seq<Byte>, len: nat)
    requires SizeOk(size) && |b| >= size && start < U32 && start % 8 == 0
    requires len <= MAX_DATA_SIZE && HDR_SIZE + len <= |s| <= AlignUp8(HDR_SIZE + len)
    ensures var at, pad := Index(size, Wrap(start + HDR_SIZE + len)), AlignUp8(HDR_SIZE + len) - (HDR_SIZE + len);
            && at + pad <= size
            && Put(Put(b, size, Index(size, start), s), size, at, Zeros(pad))
               == Put(b, size, Index(size, start), s[..HDR_SIZE + len] + Zeros(pad))
  {
    IndexAdd(size, start, HDR_SIZE + len);
    PadFits(size, start, len);
    PutOver(b, size, Index(size, start), s, HDR_SIZE + len, Zeros(AlignUp8(HDR_SIZE + len) - (HDR_SIZE + len)));
  }

  lemma AlignedStep(h: nat, size: nat, n: nat, k: nat)
    requires h % 8 == 0 && size % 8 == 0 && (k == h + n || k == h + n - size) && k < size
    ensures k + (AlignUp8(n) - n) <= size
  {
    var e, m := k + (AlignUp8(n) - n), size / 8;
    var q := h / 8 + AlignUp8(n) / 8 - (if k == h + n then 0 else m);
    assert e == 8 * q && size == 8 * m && e < size + 8;
  }

  // ---- Stored records ----

  ghost predicate Stored(b: seq<Byte>, size: nat, h: nat, recs: seq<Record>)
    requires h < size <= |b| && AllWf(recs) && Total(recs) <= size
    decreases recs
  {
    recs == [] ||
    (Holds(b, size, h, Encode(recs[0])) && Stored(b, size, At(size, h, Size(recs[0])), recs[1..]))
  }

  lemma {:induction false} StoredFrame(b: seq<Byte>, c: seq<Byte>, size: nat, h: nat, recs: seq<Record>)
    requires h < size <= |b| && |b| == |c| && AllWf(recs) && Total(recs) <= size
    requires Stored(b, size, h, recs)
    requires forall i :: 0 <= i < Total(recs) ==> c[At(size, h, i)] == b[At(size, h, i)]
    ensures Stored(c, size, h, recs)
    decreases recs
  {
    if recs != [] {
      var n := Size(recs[0]);
      assert forall i :: 0 <= i < |Encode(recs[0])| ==> c[At(size, h, i)] == b[At(size, h, i)];
      var m := At(size, h, n);
      forall i | 0 <= i < Total(recs[1..])
        ensures c[At(size, m, i)] == b[At(size, m, i)]
      {
        assert At(size, m, i) == At(size, h, n + i);
      }
      StoredFrame(b, c, size, m, recs[1..]);
    }
  }

  lemma {:induction false} StoredAppend(b: seq<Byte>, size: nat, h: nat, recs: seq<Record>, r: Record)
    requires h < size <= |b| && AllWf(recs) && r.Wf() && Total(recs) + Size(r) <= size
    requires Stored(b, size, h, recs)
    requires Holds(b, size, At(size, h, Total(recs)), Encode(r))
    ensures Total(recs + [r]) <= size && Stored(b, size, h, recs + [r])
    decreases recs
  {
    TotalAppend(recs, [r]);
    if recs == [] {
      assert recs + [r] == [r];
    } else {
      assert (recs + [r])[1..] == recs[1..] + [r];
      StoredAppend(b, size, At(size, h, Size(recs[0])), recs[1..], r);
    }
  }

  /** Header and payload with the seal tag in front and the padding behind. */
  ghost function Sealed(hdr: seq<Byte>, payload: seq<Byte>): seq<Byte>
    requires |hdr| == HDR_SIZE
  {
    [LOG_TAG_SEAL] + hdr[1..] + payload + Zeros(AlignUp8(HDR_SIZE + |payload|) - (HDR_SIZE + |payload|))
  }

  lemma StoredHeader(b: seq<Byte>, size: nat, h: nat, recs: seq<Record>)
    requires h < size <= |b| && AllWf(recs) && Total(recs) <= size && recs != []
    requires Stored(b, size, h, recs)
    ensures b[h] == LOG_TAG_SEAL
    ensures forall i :: 0 <= i < HDR_SIZE ==> b[At(size, h, i)] == Encode(recs[0])[i]
    ensures HDR_SIZE + Encode(recs[0])[4] + Encode(recs[0])[5] == Size(recs[0])
  {
    EncodeDecode(recs[0]);
    assert b[At(size, h, 0)] == Encode(recs[0])[0];
  }

  /** Bytes written right behind the first `n` stored bytes leave those as they are. */
  lemma PutBehind(b: seq<Byte>, size: nat, h: nat, n: nat, e: seq<Byte>)
    requires h < size <= |b| && n + |e| <= size
    ensures var c := Put(b, size, At(size, h, n), e);
            && c[size..] == b[size..] && Holds(c, size, At(size, h, n), e)
            && forall i :: 0 <= i < n ==> c[At(size, h, i)] == b[At(size, h, i)]
  {
    var m := At(size, h, n);
    PutHolds(b, size, m, e);
    forall i | 0 <= i < n
      ensures Put(b, size, m, e)[At(size, h, i)] == b[At(size, h, i)]
    {
      assert Dist(size, m, At(size, h, i)) >= |e|;
    }
  }

  /** Writing an encoded record behind the stored ones, with room for it, stores it too. */
  lemma PushStored(b: seq<Byte>, size: nat, h: nat, recs: seq<Record>, r: Record)
    requires h < size <= |b| && AllWf(recs) && r.Wf() && Total(recs) + Size(r) <= size
    requires Stored(b, size, h, recs)
    ensures Total(recs + [r]) <= size
    ensures Put(b, size, At(size, h, Total(recs)), Encode(r))[size..] == b[size..]
    ensures Stored(Put(b, size, At(size, h, Total(recs)), Encode(r)), size, h, recs + [r])
  {
    PutBehind(b, size, h, Total(recs), Encode(r));
    var c := Put(b, size, At(size, h, Total(recs)), Encode(r));
    StoredFrame(b, c, size, h, recs);
    StoredAppend(c, size, h, recs, r);
  }

  lemma SealedIsEncoded(r: Record)
    requires r.Wf()
    ensures Sealed(Header(LOG_TAG_FREE, r), r.payload) == Encode(r)
  {
  }

  /** Memory `b` is a ring with view `v`. */
  ghost predicate Image(b: seq<Byte>, v: RingView) {
    && Ok(v) && |b| == v.size + 8 && b[v.size..] == GUARD
    && Stored(b, v.size, Index(v.size, v.tail), v.recs)
  }

  lemma AppendImage(b: seq<Byte>, v: RingView, r: Record)
    requires Image(b, v) && r.Wf() && Total(v.recs) + Size(r) <= v.size
    ensures Image(Put(b, v.size, Index(v.size, HeadOf(v)), Encode(r)), Appended(v, r))
  {
    AppendedOk(v, r);
    IndexPlus(v.size, v.tail, Total(v.recs));
    PushStored(b, v.size, Index(v.size, v.tail), v.recs, r);
  }

  lemma DropImage(b: seq<Byte>, v: RingView)
    requires Image(b, v) && v.recs != []
    ensures Image(b, Dropped(v))
  {
    FreedOk(v);
    IndexPlus(v.size, v.tail, Size(v.recs[0]));
  }

  /** Unsealing the oldest record leaves the others in place. */
  lemma ConsumeStored(b: seq<Byte>, size: nat, h: nat, recs: seq<Record>)
    requires h < size <= |b| && AllWf(recs) && Total(recs) <= size && recs != []
    requires Stored(b, size, h, recs)
    ensures Stored(b[h := LOG_TAG_FREE], size, At(size, h, Size(recs[0])), recs[1..])
    ensures b[h := LOG_TAG_FREE][size..] == b[size..]
  {
    var n := Size(recs[0]);
    var c, m := b[h := LOG_TAG_FREE], At(size, h, n);
    forall i | 0 <= i < Total(recs[1..])
      ensures c[At(size, m, i)] == b[At(size, m, i)]
    {
      assert At(size, m, i) == At(size, h, n + i);
    }
    StoredFrame(b, c, size, m, recs[1..]);
  }

  lemma ConsumeImage(b: seq<Byte>, v: RingView)
    requires Image(b, v) && v.recs != []
    ensures Image(b[Index(v.size, v.tail) := LOG_TAG_FREE], Freed(v))
  {
    FreedOk(v);
    ConsumeStored(b, v.size, Index(v.size, v.tail), v.recs);
    IndexPlus(v.size, v.tail, Size(v.recs[0]));
  }

  /** The payload of the oldest record, byte by byte. */
  lemma StoredPayload(b: seq<Byte>, size: nat, h: nat, recs: seq<Record>)
    requires h < size <= |b| && AllWf(recs) && Total(recs) <= size && recs != []
    requires Stored(b, size, h, recs)
    ensures forall i :: 0 <= i < |recs[0].payload| ==> b[At(size, h, HDR_SIZE + i)] == recs[0].payload[i]
  {
    var r := recs[0];
    forall i | 0 <= i < |r.payload|
      ensures b[At(size, h, HDR_SIZE + i)] == r.payload[i]
    {
      assert Encode(r)[HDR_SIZE + i] == r.payload[i];
    }
  }

  /** What a reader finds in the twelve header bytes of an encoded record. */
  lemma HeaderDecodes(hdr: seq<Byte>, r: Record)
    requires r.Wf() && |hdr| == HDR_SIZE && hdr == Encode(r)[..HDR_SIZE]
    ensures hdr[1] == r.lvl && hdr[2] == r.dom && hdr[3] == r.ent && hdr[4] == |r.payload|
    ensures HDR_SIZE + hdr[4] + hdr[5] == Size(r) && TsOf(hdr) == r.ts
  {
    EncodeDecode(r);
    var e := Encode(r);
    assert e[6..8] == hdr[6..8] && e[8..12] == hdr[8..12];
  }

  /** The unmasked read of the first four payload bytes: right except at the last aligned index. */
  lemma FirstWord(b: seq<Byte>, size: nat, h: nat, recs: seq<Record>)
    requires h < size && |b| == size + 8 && b[size..] == GUARD && AllWf(recs) && Total(recs) <= size && recs != []
    requires Stored(b, size, h, recs)
    requires h + 8 == size || h + HDR_SIZE + 4 <= size
    ensures forall i :: 0 <= i < 4 && i < |recs[0].payload| ==>
              b[h + HDR_SIZE + i] == Text(size, h, recs[0].payload)[i]
  {
    StoredPayload(b, size, h, recs);
    forall i | 0 <= i < 4 && i < |recs[0].payload|
      ensures b[h + HDR_SIZE + i] == Text(size, h, recs[0].payload)[i]
    {
      if h + 8 == size {
        assert b[size..][4 + i] == GUARD[4 + i];
      } else {
        assert At(size, h, HDR_SIZE + i) == h + HDR_SIZE + i;
      }
    }
  }

  /** An aligned index leaves room for the header's first eight bytes, or for sixteen bytes. */
  lemma RoomBehind(size: nat, pos: nat)
    requires SizeOk(size) && pos % 8 == 0
    ensures var h := Index(size, pos); h + 8 == size || h + HDR_SIZE + 4 <= size
  {
    IndexAligned(size, pos);
    AlignedBelow(Index(size, pos), size);
  }

  lemma AlignedBelow(h: nat, size: nat)
    requires h % 8 == 0 && size % 8 == 0 && h < size
    ensures h + 8 == size || h + 16 <= size
  {
  }

  /** Setting the tag in front of header, payload and padding seals the record. */
  lemma SealFirst(b: seq<Byte>, size: nat, h: nat, hdr: seq<Byte>, payload: seq<Byte>, c: seq<Byte>)
    requires |hdr| == HDR_SIZE && AlignUp8(HDR_SIZE + |payload|) <= size && h < size <= |b|
    requires var len := HDR_SIZE + |payload|;
             c == Put(b, size, h, hdr + payload + Zeros(AlignUp8(len) - len))[h := LOG_TAG_SEAL]
    ensures c == Put(b, size, h, Sealed(hdr, payload))
  {
    var t := hdr + payload + Zeros(AlignUp8(HDR_SIZE + |payload|) - (HDR_SIZE + |payload|));
    PutFirst(b, size, h, t, LOG_TAG_SEAL);
    assert t[0 := LOG_TAG_SEAL] == Sealed(hdr, payload);
  }

  /** Everything that appending `r` relies on, in memory and in the words that count. */
  lemma AppendReady(b: seq<Byte>, v: RingView, r: Record)
    requires Image(b, v) && r.Wf() && Total(v.recs) + Size(r) <= v.size
    ensures Image(Put(b, v.size, Index(v.size, HeadOf(v)), Encode(r)), Appended(v, r))
    ensures Wrap(HeadOf(v)) % 8 == 0 && Index(v.size, Wrap(HeadOf(v))) == Index(v.size, HeadOf(v))
    ensures Wrap(Wrap(HeadOf(v)) + Size(r)) == Wrap(HeadOf(Appended(v, r))) && Wrap(Wrap(v.sum) + 1) == Wrap(v.sum + 1)
  {
    AppendImage(b, v, r);
    AppendWords(v, r);
  }

  lemma AppendWords(v: RingView, r: Record)
    requires Ok(v)
    ensures Wrap(HeadOf(v)) % 8 == 0 && Index(v.size, Wrap(HeadOf(v))) == Index(v.size, HeadOf(v))
    ensures Wrap(Wrap(HeadOf(v)) + Size(r)) == Wrap(HeadOf(Appended(v, r))) && Wrap(Wrap(v.sum) + 1) == Wrap(v.sum + 1)
  {
    TotalAligned(v.recs);
    TotalSnoc(v.recs, r);
    HeadWords(v.size, HeadOf(v), Size(r));
    WrapAdd(v.sum, 1);
  }

  lemma HeadWords(size: nat, head: nat, n: nat)
    requires SizeOk(size) && head % 8 == 0
    ensures Wrap(head) % 8 == 0 && Index(size, Wrap(head)) == Index(size, head)
    ensures Wrap(Wrap(head) + n) == Wrap(head + n)
  {
    WrapAligned(head);
    IndexWrap(size, head);
    WrapAdd(head, n);
  }

  /** The tag of each of these records, the first of which starts at `tail`, set to free. */
  function Unsealed(b: seq<Byte>, size: nat, tail: nat, recs: seq<Record>): (r: seq<Byte>)
    requires 0 < size <= |b|
    ensures |r| == |b|
    decreases recs
  {
    if recs == [] then b
    else Unsealed(b[Index(size, tail) := LOG_TAG_FREE], size, tail + Size(recs[0]), recs[1..])
  }

  /** A byte of the buffer changes exactly when a record starts there, and then is 0xDF. */
  lemma {:induction false} UnsealedIs(b: seq<Byte>, size: nat, tail: nat, recs: seq<Record>, i: nat)
    requires 0 < size <= |b| && i < |b|
    ensures var starts := exists k :: 0 <= k < |recs| && (tail + Total(recs[..k])) % size == i;
            Unsealed(b, size, tail, recs)[i] == if starts then 0xDF else b[i]
    decreases recs
  {
    if recs != [] {
      var c, next := b[Index(size, tail) := LOG_TAG_FREE], tail + Size(recs[0]);
      IndexIsRemainder(size, tail);
      UnsealedIs(c, size, next, recs[1..], i);
      forall k | 0 <= k < |recs|
        ensures tail + Total(recs[..k]) == if k == 0 then tail else next + Total(recs[1..][..k - 1])
      {
        if k > 0 {
          assert recs[..k][0] == recs[0] && recs[..k][1..] == recs[1..][..k - 1];
        }
      }
      StartsShift(size, tail, recs, i);
    }
  }

  lemma StartsShift(size: nat, tail: nat, recs: seq<Record>, i: nat)
    requires size > 0 && recs != []
    requires forall k :: 0 <= k < |recs| ==>
               tail + Total(recs[..k]) == if k == 0 then tail else tail + Size(recs[0]) + Total(recs[1..][..k - 1])
    ensures (exists k :: 0 <= k < |recs| && (tail + Total(recs[..k])) % size == i)
            <==> tail % size == i
                 || exists k :: 0 <= k < |recs[1..]| && (tail + Size(recs[0]) + Total(recs[1..][..k])) % size == i
  {
    if k :| 0 <= k < |recs| && (tail + Total(recs[..k])) % size == i {
      if k > 0 {
        assert (tail + Size(recs[0]) + Total(recs[1..][..k - 1])) % size == i;
      }
    }
    if tail % size == i {
      assert (tail + Total(recs[..0])) % size == i;
    }
    if k :| 0 <= k < |recs[1..]| && (tail + Size(recs[0]) + Total(recs[1..][..k])) % size == i {
      assert (tail + Total(recs[..k + 1])) % size == i;
    }
  }
}
