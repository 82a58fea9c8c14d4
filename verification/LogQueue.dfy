// The log ring as its callers see it: a queue of records that drops the oldest to make room.

module LogQueue {
  import opened Arith
  import opened LogRecords

  /** The 32-bit word that holds a count: its value modulo 2^32. */
  function Wrap(x: nat): (r: nat)
    ensures r < U32
  {
    if x < U32 then x else Wrap(x - U32)
  }

  // guard_end and pad2, the eight bytes that follow the ring in memory.
  const GUARD: seq<Byte> := [0xEF, 0xBE, 0xAD, 0xDE, 0xEC, 0xEC, 0xEC, 0xEC]

  ghost predicate SizeOk(size: nat) {
    512 <= size < U32 && size % 8 == 0 && PowerOfTwo(size)
  }

  /** Buffer index of a position: `pos & (size - 1)`. */
  function Index(size: nat, pos: nat): (h: nat)
    requires size > 0
    ensures h < size
  {
    if pos < size then pos else Index(size, pos - size)
  }

  // ---- The queue: its records, oldest first, and how many bytes were ever reserved before them ----

  datatype Delivered = Delivered(dom: Byte, ent: Byte, lvl: Byte, ts: nat, msg: seq<Byte>)

  datatype RingView = RingView(size: nat, tail: nat, recs: seq<Record>, dirty: bool, sum: nat, drops: nat)

  function Total(recs: seq<Record>): nat {
    if recs == [] then 0 else Size(recs[0]) + Total(recs[1..])
  }

  ghost predicate AllWf(recs: seq<Record>) {
    forall i :: 0 <= i < |recs| ==> recs[i].Wf()
  }

  ghost predicate Ok(v: RingView) {
    SizeOk(v.size) && v.tail % 8 == 0 && AllWf(v.recs) && Total(v.recs) <= v.size
  }

  ghost function HeadOf(v: RingView): nat {
    v.tail + Total(v.recs)
  }

  /** The oldest record is handed over. */
  ghost function Freed(v: RingView): RingView
    requires v.recs != []
  {
    v.(tail := v.tail + Size(v.recs[0]), recs := v.recs[1..])
  }

  /** The oldest record is dropped. */
  ghost function Dropped(v: RingView): RingView
    requires v.recs != []
  {
    Freed(v).(drops := v.drops + 1)
  }

  /** The ring with `r` written at its head. */
  ghost function Appended(v: RingView, r: Record): RingView {
    v.(recs := v.recs + [r], dirty := true, sum := v.sum + 1)
  }

  ghost function MadeRoom(v: RingView, room: int): RingView
    decreases v.recs
  {
    if v.recs == [] || Total(v.recs) <= room then v else MadeRoom(Dropped(v), room)
  }

  ghost function Dispatched(v: RingView, r: Record): RingView {
    Appended(MadeRoom(v, v.size - Size(r)), r)
  }

  /** The text the writer callback gets for a record that starts at buffer index `h`: at the last
      possible index the first word comes from the bytes behind the ring. */
  function Text(size: nat, h: nat, payload: seq<Byte>): (t: seq<Byte>)
    ensures |t| == |payload|
  {
    if h + 8 == size then
      seq(|payload|, i requires 0 <= i < |payload| => if i < 4 then 0xEC else payload[i])
    else payload
  }

  /** What the writer callback gets for the oldest record. */
  ghost function DeliverOne(v: RingView): Delivered
    requires v.size > 0 && v.recs != []
  {
    var r := v.recs[0];
    Delivered(r.dom, r.ent, r.lvl, r.ts, Text(v.size, Index(v.size, v.tail), r.payload))
  }

  ghost function Deliver(v: RingView): (out: seq<Delivered>)
    requires v.size > 0
    ensures |out| == |v.recs|
    decreases v.recs
  {
    if v.recs == [] then [] else [DeliverOne(v)] + Deliver(Freed(v))
  }

  /** A flush compares the 32-bit words, so it sees no record when only the head has wrapped. */
  ghost predicate InOrder(v: RingView) {
    Wrap(v.tail) <= Wrap(HeadOf(v))
  }

  ghost function Flushed(v: RingView): RingView {
    if InOrder(v) then v.(tail := HeadOf(v), recs := [], dirty := false) else v.(dirty := false)
  }

  ghost function FlushOut(v: RingView): seq<Delivered>
    requires v.size > 0
  {
    if InOrder(v) then Deliver(v) else []
  }

  // ---- What the operations keep ----

  lemma FreedOk(v: RingView)
    requires Ok(v) && v.recs != []
    ensures Ok(Freed(v)) && HeadOf(Freed(v)) == HeadOf(v)
  {
  }

  lemma {:induction false} MadeRoomOk(v: RingView, room: int)
    requires Ok(v) && room >= 0
    ensures var w := MadeRoom(v, room);
            Ok(w) && w.size == v.size && HeadOf(w) == HeadOf(v) && Total(w.recs) <= room
    decreases v.recs
  {
    if Total(v.recs) > room {
      FreedOk(v);
      MadeRoomOk(Dropped(v), room);
    }
  }

  lemma RoomMore(v: RingView, room: int)
    requires v.recs != [] && Total(v.recs) > room
    ensures MadeRoom(v, room) == MadeRoom(Dropped(v), room)
  {
  }

  lemma RoomEnough(v: RingView, room: int)
    requires Total(v.recs) <= room
    ensures MadeRoom(v, room) == v
  {
  }

  lemma AppendedOk(v: RingView, r: Record)
    requires Ok(v) && r.Wf() && Total(v.recs) + Size(r) <= v.size
    ensures Ok(Appended(v, r)) && HeadOf(Appended(v, r)) == HeadOf(v) + Size(r)
  {
    TotalSnoc(v.recs, r);
  }

  lemma {:induction false} TotalAligned(recs: seq<Record>)
    ensures Total(recs) % 8 == 0
  {
    if recs != [] {
      TotalAligned(recs[1..]);
    }
  }

  lemma {:induction false} TotalAppend(a: seq<Record>, b: seq<Record>)
    ensures Total(a + b) == Total(a) + Total(b)
  {
    if a == [] {
      assert a + b == b;
    } else {
      assert (a + b)[1..] == a[1..] + b;
      TotalAppend(a[1..], b);
    }
  }

  lemma TotalSnoc(recs: seq<Record>, r: Record)
    ensures Total(recs + [r]) == Total(recs) + Size(r)
  {
    TotalAppend(recs, [r]);
    assert Total([r]) == Size(r) + Total([]);
  }

  // ---- 32-bit words ----

  lemma {:induction false} WrapIsRemainder(x: nat)
    ensures Wrap(x) == x % U32
  {
    if x >= U32 {
      WrapIsRemainder(x - U32);
    }
  }

  lemma {:induction false} WrapAdd(x: nat, n: nat)
    ensures Wrap(Wrap(x) + n) == Wrap(x + n)
  {
    if x >= U32 {
      WrapAdd(x - U32, n);
    }
  }

  /** Adding less than 2^32 to a count wraps its word at most once. */
  lemma {:induction false} WrapStep(x: nat, n: nat)
    requires n < U32
    ensures Wrap(x + n) == Wrap(x) + n || Wrap(x + n) == Wrap(x) + n - U32
  {
    if x >= U32 {
      WrapStep(x - U32, n);
    }
  }

  /** The difference of two words is the difference of the counts. */
  lemma WrapDiff(x: nat, d: nat, n: nat)
    requires d + n < U32
    ensures Wrap(Wrap(x + d) + n + U32 - Wrap(x)) == d + n
  {
    WrapStep(x, d);
  }

  lemma {:induction false} WrapAligned(x: nat)
    requires x % 8 == 0
    ensures Wrap(x) % 8 == 0
  {
    if x >= U32 {
      WrapAligned(x - U32);
    }
  }

  lemma SizeHalf(size: nat)
    requires SizeOk(size)
    ensures 2 * size <= U32
  {
    if size > U32 / 2 {
      PowersOrder(size);
    }
  }

  /** There is no power of two strictly between 2^31 and 2^32. */
  lemma PowersOrder(n: nat)
    requires U32 / 2 < n < U32
    ensures !PowerOfTwo(n)
  {
    if PowerOfTwo(n) {
      U32IsPower();
      PowersDivide(n, U32);
      ModIs(U32, 1, U32 - n, n);
    }
  }

  // ---- One step of the loops ----

  /** The writers compare the bytes in use plus the bytes wanted with the ring size. */
  lemma RoomStep(v: RingView, tot: nat)
    requires Ok(v) && tot <= 272
    ensures Wrap(Wrap(HeadOf(v)) + tot + U32 - Wrap(v.tail)) == Total(v.recs) + tot
    ensures Total(v.recs) + tot > v.size ==> v.recs != []
  {
    SizeHalf(v.size);
    WrapDiff(v.tail, Total(v.recs), tot);
  }

  /** One turn of the writers' loop. */
  lemma RoomTurn(v: RingView, tot: nat)
    requires Ok(v) && tot <= 272 && Total(v.recs) + tot > v.size
    ensures v.recs != []
    ensures var w := Dropped(v);
            && Wrap(Wrap(HeadOf(w)) + tot + U32 - Wrap(w.tail)) == Total(w.recs) + tot
            && MadeRoom(w, v.size - tot) == MadeRoom(v, v.size - tot)
  {
    RoomStep(v, tot);
    FreedOk(v);
    RoomStep(Dropped(v), tot);
    RoomMore(v, v.size - tot);
  }

  /** A flush of `v` has come as far as `w` and handed over `out`. */
  ghost predicate Draining(v: RingView, w: RingView, out: seq<Delivered>, hasWriter: bool)
    requires v.size > 0
  {
    && w == v.(tail := w.tail, recs := w.recs)
    && HeadOf(w) == HeadOf(v)
    && (if InOrder(v) then Wrap(w.tail) + Total(w.recs) == Wrap(HeadOf(v)) else w == v)
    && (if hasWriter && InOrder(v) then out + Deliver(w) == Deliver(v) else out == [])
  }

  lemma DrainStart(v: RingView, hasWriter: bool)
    requires Ok(v)
    ensures Draining(v, v, [], hasWriter)
  {
    SizeHalf(v.size);
    WrapStep(v.tail, Total(v.recs));
  }

  lemma DrainStep(v: RingView, w: RingView, out: seq<Delivered>, hasWriter: bool)
    requires Ok(v) && Ok(w) && Draining(v, w, out, hasWriter) && Wrap(w.tail) < Wrap(HeadOf(v))
    ensures w.recs != []
    ensures Draining(v, Freed(w), if hasWriter then out + [DeliverOne(w)] else out, hasWriter)
  {
    SizeHalf(v.size);
    WrapStep(w.tail, Size(w.recs[0]));
    assert Deliver(w) == [DeliverOne(w)] + Deliver(Freed(w));
  }

  lemma DrainEnd(v: RingView, w: RingView, out: seq<Delivered>, hasWriter: bool)
    requires Ok(v) && Draining(v, w, out, hasWriter) && Wrap(w.tail) >= Wrap(HeadOf(v))
    ensures w.(dirty := false) == Flushed(v) && out == if hasWriter then FlushOut(v) else []
  {
    assert w.recs != [] ==> Total(w.recs) > 0;
  }
}
