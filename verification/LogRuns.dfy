// What the log promises over any sequence of dispatches and flushes that do not overlap.

module LogRuns {
  import opened Arith
  import opened LogRecords
  import opened LogQueue
  import opened LogStore

  // ---- One dispatch ----

  /** Making room drops a prefix of the oldest records and counts it. */
  lemma {:induction false} RoomDropsPrefix(v: RingView, room: nat)
    requires Ok(v)
    ensures var w := MadeRoom(v, room);
            && |w.recs| <= |v.recs|
            && var k := |v.recs| - |w.recs|;
            && w.recs == v.recs[k..] && w.drops == v.drops + k && w.size == v.size
            && w.dirty == v.dirty && w.sum == v.sum
    decreases v.recs
  {
    if Total(v.recs) > room {
      var d := Dropped(v);
      FreedOk(v);
      RoomDropsPrefix(d, room);
      var k := |d.recs| - |MadeRoom(d, room).recs|;
      assert v.recs[1..][k..] == v.recs[k + 1..];
    }
  }

  /** That prefix is the shortest one after which the rest fit. */
  lemma {:induction false} RoomIsShortest(v: RingView, room: nat, j: nat)
    requires Ok(v) && j <= |v.recs|
    ensures var k := |v.recs| - |MadeRoom(v, room).recs|;
            Total(v.recs[j..]) <= room <==> k <= j
    decreases v.recs
  {
    RoomDropsPrefix(v, room);
    assert v.recs[0..] == v.recs;
    if Total(v.recs) > room {
      FreedOk(v);
      RoomDropsPrefix(Dropped(v), room);
      if j > 0 {
        RoomIsShortest(Dropped(v), room, j - 1);
        assert v.recs[j..] == v.recs[1..][j - 1..];
      }
    } else {
      TotalAppend(v.recs[..j], v.recs[j..]);
      assert v.recs[..j] + v.recs[j..] == v.recs;
    }
  }

  lemma DispatchedOk(v: RingView, r: Record)
    requires Ok(v) && r.Wf()
    ensures Ok(Dispatched(v, r)) && HeadOf(Dispatched(v, r)) == HeadOf(v) + Size(r)
  {
    MadeRoomOk(v, v.size - Size(r));
    AppendedOk(MadeRoom(v, v.size - Size(r)), r);
  }

  lemma MadeRoomIs(v: RingView, room: nat) returns (k: nat)
    requires Ok(v)
    ensures k <= |v.recs| && Total(v.recs[k..]) <= room
    ensures forall j :: 0 <= j < k ==> Total(v.recs[j..]) > room
    ensures MadeRoom(v, room) == v.(tail := v.tail + Total(v.recs[..k]), recs := v.recs[k..], drops := v.drops + k)
  {
    RoomDropsPrefix(v, room);
    MadeRoomOk(v, room);
    k := |v.recs| - |MadeRoom(v, room).recs|;
    RoomIsShortest(v, room, k);
    forall j | 0 <= j < k
      ensures Total(v.recs[j..]) > room
    {
      RoomIsShortest(v, room, j);
    }
    SplitTotal(v.recs, k);
  }

  lemma SplitTotal(recs: seq<Record>, k: nat)
    requires k <= |recs|
    ensures Total(recs) == Total(recs[..k]) + Total(recs[k..])
  {
    TotalAppend(recs[..k], recs[k..]);
    assert recs[..k] + recs[k..] == recs;
  }

  /** A dispatch drops the fewest oldest records that leave room for the new one, and appends it. */
  lemma DispatchedIs(v: RingView, r: Record) returns (k: nat)
    requires Ok(v) && r.Wf()
    ensures k <= |v.recs| && Total(v.recs[k..]) + Size(r) <= v.size
    ensures forall j :: 0 <= j < k ==> Total(v.recs[j..]) + Size(r) > v.size
    ensures Dispatched(v, r)
            == RingView(v.size, v.tail + Total(v.recs[..k]), v.recs[k..] + [r], true, v.sum + 1, v.drops + k)
  {
    var room := v.size - Size(r);
    k := MadeRoomIs(v, room);
    var m := v.(tail := v.tail + Total(v.recs[..k]), recs := v.recs[k..], drops := v.drops + k);
    AppendedIs(v, r, m, room);
  }

  lemma AppendedIs(v: RingView, r: Record, m: RingView, room: nat)
    requires room + Size(r) == v.size && MadeRoom(v, room) == m
    ensures Dispatched(v, r) == RingView(m.size, m.tail, m.recs + [r], true, m.sum + 1, m.drops)
  {
  }

  // ---- One flush ----

  /** What the writer callback should get for a record. */
  function Faithful(r: Record): Delivered {
    Delivered(r.dom, r.ent, r.lvl, r.ts, r.payload)
  }

  /** The `k`-th retained record starts at this position. */
  function PositionOf(v: RingView, k: nat): nat
    requires k <= |v.recs|
  {
    v.tail + Total(v.recs[..k])
  }

  /** The payload starts with the bytes that follow the ring, as far as the first word reaches. */
  ghost predicate StartsLikeGuard(payload: seq<Byte>) {
    forall i :: 0 <= i < 4 && i < |payload| ==> payload[i] == 0xEC
  }

  lemma {:induction false} DeliveredAt(v: RingView, k: nat)
    requires v.size > 0 && k < |v.recs|
    ensures var r, h := v.recs[k], Index(v.size, PositionOf(v, k));
            Deliver(v)[k] == Faithful(r).(msg := Text(v.size, h, r.payload))
    decreases v.recs
  {
    if k == 0 {
      assert v.recs[..0] == [];
    } else {
      DeliveredAt(Freed(v), k - 1);
      assert v.recs[..k][1..] == v.recs[1..][..k - 1];
    }
  }

  /** A flush in order delivers the retained records oldest first, each exactly as it was dispatched
      unless it starts eight bytes before the end of the buffer and does not happen to start like the
      guard bytes there. */
  lemma DeliveredFaithfully(v: RingView, k: nat)
    requires Ok(v) && InOrder(v) && k < |v.recs|
    ensures |FlushOut(v)| == |v.recs|
    ensures FlushOut(v)[k] == Faithful(v.recs[k]) <==>
            Index(v.size, PositionOf(v, k)) + 8 != v.size || StartsLikeGuard(v.recs[k].payload)
  {
    DeliveredAt(v, k);
    var h, p := Index(v.size, PositionOf(v, k)), v.recs[k].payload;
    if h + 8 == v.size {
      if StartsLikeGuard(p) {
        assert Text(v.size, h, p) == p;
      } else {
        var i :| 0 <= i < 4 && i < |p| && p[i] != 0xEC;
        assert Text(v.size, h, p)[i] != p[i];
      }
    }
  }

  /** A record just dispatched is the last one of the next flush in order, with its domain, entity, level,
      timestamp and text, unless it starts eight bytes before the end of the ring. */
  lemma DispatchDelivers(v: RingView, r: Record)
    requires Ok(v) && r.Wf()
    ensures var w := Dispatched(v, r);
            InOrder(w) && (HeadOf(v) % v.size) + 8 != v.size ==>
              && w.size > 0 && FlushOut(w) != []
              && var d := FlushOut(w)[|FlushOut(w)| - 1];
                 d.dom == r.dom && d.ent == r.ent && d.lvl == r.lvl && d.ts == r.ts && d.msg == r.payload
  {
    var w := Dispatched(v, r);
    var k := DispatchedIs(v, r);
    DispatchedOk(v, r);
    var n := |w.recs| - 1;
    assert w.recs[..n] == v.recs[k..];
    SplitTotal(v.recs, k);
    assert PositionOf(w, n) == HeadOf(v);
    IndexIsRemainder(v.size, HeadOf(v));
    DeliveredAt(w, n);
  }

  // ---- Runs ----

  datatype Op = Dispatch(r: Record) | Flush

  /** The ring, every record ever accepted, how many were flushed, and whether each flush was in order. */
  datatype Log = Log(v: RingView, accepted: seq<Record>, freed: nat, inOrder: bool)

  ghost function Step(l: Log, op: Op): Log {
    match op
    case Dispatch(r) => l.(v := Dispatched(l.v, r), accepted := l.accepted + [r])
    case Flush => l.(v := Flushed(l.v), freed := l.freed + (if InOrder(l.v) then |l.v.recs| else 0),
                     inOrder := l.inOrder && InOrder(l.v))
  }

  ghost function Run(size: nat, ops: seq<Op>): Log {
    if ops == [] then Log(RingView(size, 0, [], false, 0, 0), [], 0, true)
    else Step(Run(size, ops[..|ops| - 1]), ops[|ops| - 1])
  }

  lemma RunStep(size: nat, ops: seq<Op>, op: Op)
    ensures Run(size, ops + [op]) == Step(Run(size, ops), op)
  {
    assert (ops + [op])[..|ops|] == ops;
  }

  ghost predicate AllValid(ops: seq<Op>) {
    forall i :: 0 <= i < |ops| && ops[i].Dispatch? ==> ops[i].r.Wf()
  }

  ghost predicate Consistent(l: Log) {
    && Ok(l.v)
    && l.v.sum == |l.accepted| == l.freed + l.v.drops + |l.v.recs|
    && l.v.recs == l.accepted[l.freed + l.v.drops..]
    && HeadOf(l.v) == Total(l.accepted)
    && (l.v.dirty ==> l.v.recs != [])
    && (l.inOrder ==> (l.v.dirty <==> l.v.recs != []))
  }

  lemma DispatchKeeps(l: Log, r: Record)
    requires Consistent(l) && r.Wf()
    ensures Consistent(Step(l, Dispatch(r)))
  {
    DispatchedOk(l.v, r);
    TotalSnoc(l.accepted, r);
    RoomDropsPrefix(l.v, l.v.size - Size(r));
  }

  lemma FlushedOk(v: RingView)
    requires Ok(v)
    ensures Ok(Flushed(v)) && HeadOf(Flushed(v)) == HeadOf(v)
    ensures Flushed(v).recs == if InOrder(v) then [] else v.recs
    ensures !InOrder(v) ==> v.recs != []
    ensures Flushed(v) == v.(tail := Flushed(v).tail, recs := Flushed(v).recs, dirty := false)
  {
    TotalAligned(v.recs);
  }

  lemma FlushKeeps(l: Log)
    requires Consistent(l)
    ensures Consistent(Step(l, Flush))
  {
    FlushedOk(l.v);
  }

  lemma StepKeeps(l: Log, op: Op)
    requires Consistent(l) && (op.Dispatch? ==> op.r.Wf())
    ensures Consistent(Step(l, op))
  {
    match op {
      case Dispatch(r) => DispatchKeeps(l, r);
      case Flush => FlushKeeps(l);
    }
  }

  /** Over every run: nothing is lost but what is counted as dropped, nothing is reordered or repeated,
      and as long as every flush was in order the dirty flag says whether anything is retained. */
  lemma {:induction false} RunKeeps(size: nat, ops: seq<Op>)
    requires SizeOk(size) && AllValid(ops)
    ensures Consistent(Run(size, ops))
  {
    if ops != [] {
      RunKeeps(size, ops[..|ops| - 1]);
      StepKeeps(Run(size, ops[..|ops| - 1]), ops[|ops| - 1]);
    }
  }

  /** The bytes of all records no longer retained after a run, flushed or dropped. */
  ghost function GoneBytes(l: Log): nat
    requires l.freed + l.v.drops <= |l.accepted|
  {
    Total(l.accepted[..l.freed + l.v.drops])
  }

  lemma TailIsGone(l: Log)
    requires Consistent(l)
    ensures l.v.tail == GoneBytes(l)
  {
    var k := l.freed + l.v.drops;
    TotalAppend(l.accepted[..k], l.accepted[k..]);
    assert l.accepted[..k] + l.accepted[k..] == l.accepted;
  }

  /** Of two counts less than 2^32 apart the words are in order exactly when both are in the same 2^32. */
  lemma WordsInOrder(a: nat, b: nat)
    requires a <= b < a + U32
    ensures Wrap(a) <= Wrap(b) <==> a / U32 == b / U32
  {
    WrapIsRemainder(a);
    WrapIsRemainder(b);
  }

  /** After any run a flush empties the ring exactly when the bytes of the records gone and the bytes of
      all records accepted count the same number of full 2^32. Otherwise it hands over nothing, keeps
      every record and reports the log clean. */
  lemma FlushEmpties(size: nat, ops: seq<Op>)
    requires SizeOk(size) && AllValid(ops)
    ensures var l, m := Run(size, ops), Run(size, ops + [Flush]);
            && l.freed + l.v.drops <= |l.accepted| && l.v.size > 0
            && (m.v.recs == [] <==> GoneBytes(l) / U32 == Total(l.accepted) / U32)
            && (m.v.recs != [] ==> m.v.recs == l.v.recs && !m.v.dirty && FlushOut(l.v) == [])
  {
    var l := Run(size, ops);
    RunKeeps(size, ops);
    RunStep(size, ops, Flush);
    TailIsGone(l);
    WordsInOrder(l.v.tail, HeadOf(l.v));
  }

  // ---- A run on which a flush misses a record ----

  function Small(): Record {
    Record(1, 1, 10, 0, [65, 66, 67, 68])
  }

  function Large(): Record {
    Record(1, 1, 10, 0, [65, 66, 67, 68, 69])
  }

  /** Small record, flush, `n` times over. */
  function Laps(n: nat): (ops: seq<Op>)
    ensures |ops| == 2 * n && AllValid(ops)
  {
    if n == 0 then [] else Laps(n - 1) + [Dispatch(Small()), Flush]
  }

  lemma {:induction false} LapsRun(n: nat)
    requires 16 * n < U32
    ensures Run(512, Laps(n)) == Log(RingView(512, 16 * n, [], false, n, 0), Run(512, Laps(n)).accepted, n, true)
  {
    if n > 0 {
      LapsRun(n - 1);
      var ops := Laps(n - 1);
      assert Laps(n) == (ops + [Dispatch(Small())]) + [Flush];
      RunStep(512, ops, Dispatch(Small()));
      RunStep(512, ops + [Dispatch(Small())], Flush);
      LapStep(Run(512, ops));
    }
  }

  lemma LapStep(l: Log)
    requires l.v.size == 512 && l.v.recs == [] && !l.v.dirty && l.v.tail + 16 < U32
    ensures var m := Step(Step(l, Dispatch(Small())), Flush);
            && m.v == RingView(512, l.v.tail + 16, [], false, l.v.sum + 1, l.v.drops)
            && m.freed == l.freed + 1 && m.inOrder == l.inOrder
  {
    var v := Dispatched(l.v, Small());
    assert v.recs == [] + [Small()] == [Small()];
    TotalSnoc([], Small());
    assert Wrap(v.tail) == v.tail && Wrap(HeadOf(v)) == HeadOf(v);
  }

  /** After 2^28 - 1 small records a large one wraps the head: the next flush delivers nothing,
      leaves the record in the ring and still reports the log clean. */
  lemma FlushMissesRecord()
    ensures var ops := Laps(U32 / 16 - 1) + [Dispatch(Large()), Flush];
            && AllValid(ops)
            && Run(512, ops).v.recs == [Large()] && !Run(512, ops).v.dirty && !Run(512, ops).inOrder
  {
    var ops := Laps(U32 / 16 - 1);
    LapsRun(U32 / 16 - 1);
    assert ops + [Dispatch(Large()), Flush] == (ops + [Dispatch(Large())]) + [Flush];
    RunStep(512, ops, Dispatch(Large()));
    RunStep(512, ops + [Dispatch(Large())], Flush);
    var v := Run(512, ops + [Dispatch(Large())]).v;
    assert v.recs == [Large()] && Total(v.recs) == 24;
    assert HeadOf(v) == U32 + 8 && Wrap(HeadOf(v)) == 8;
  }

  // ---- A run that delivers a record with other bytes ----

  function Filled(n: nat): Record
    requires n <= MAX_DATA_SIZE
  {
    Record(1, 1, 10, 0, seq(n, i => 65))
  }

  const TO_THE_END: seq<Op> := [Dispatch(Filled(255)), Dispatch(Filled(220)), Dispatch(Small())]

  lemma RunThree(size: nat, a: Op, b: Op, c: Op)
    ensures Run(size, [a, b, c]) == Step(Step(Step(Run(size, []), a), b), c)
  {
    RunStep(size, [], a);
    RunStep(size, [a], b);
    RunStep(size, [a, b], c);
    assert [] + [a] == [a] && [a] + [b] == [a, b] && [a, b] + [c] == [a, b, c];
  }

  lemma DispatchFits(v: RingView, r: Record)
    requires Total(v.recs) + Size(r) <= v.size
    ensures Dispatched(v, r) == v.(recs := v.recs + [r], dirty := true, sum := v.sum + 1)
  {
  }

  lemma DispatchDropsOne(v: RingView, r: Record)
    requires v.recs != [] && Total(v.recs) + Size(r) > v.size && Total(v.recs[1..]) + Size(r) <= v.size
    ensures Dispatched(v, r)
            == v.(tail := v.tail + Size(v.recs[0]), recs := v.recs[1..] + [r], dirty := true, sum := v.sum + 1,
                  drops := v.drops + 1)
  {
    assert MadeRoom(Dropped(v), v.size - Size(r)) == Dropped(v);
  }

  lemma TotalTwo(a: Record, b: Record)
    ensures Total([a]) == Size(a) && Total([a, b]) == Size(a) + Size(b)
  {
    TotalSnoc([], a);
    TotalSnoc([a], b);
    assert [] + [a] == [a] && [a] + [b] == [a, b];
  }

  /** The third record finds no room until the first is dropped, and then ends where the ring does. */
  lemma ThreeRecords(a: Record, b: Record, c: Record)
    requires Size(a) == 272 && Size(b) == 232 && Size(c) == 16
    ensures Run(512, [Dispatch(a), Dispatch(b), Dispatch(c)]).v == RingView(512, 272, [b, c], true, 3, 1)
  {
    RunThree(512, Dispatch(a), Dispatch(b), Dispatch(c));
    TotalTwo(a, b);
    TotalTwo(b, c);
    DispatchFits(RingView(512, 0, [], false, 0, 0), a);
    DispatchFits(RingView(512, 0, [a], true, 1, 0), b);
    DispatchDropsOne(RingView(512, 0, [a, b], true, 2, 0), c);
    assert [] + [a] == [a] && [a] + [b] == [a, b] && [a, b][1..] == [b] && [b] + [c] == [b, c];
  }

  /** Such a run leaves a record at index 504, which is delivered with the bytes behind the ring in front. */
  lemma UnfaithfulReachable()
    ensures AllValid(TO_THE_END)
    ensures var v := Run(512, TO_THE_END).v;
            && v.size == 512 && v.recs == [Filled(220), Small()] && InOrder(v) && PositionOf(v, 1) == 504
            && |FlushOut(v)| == 2 && FlushOut(v)[1] == Faithful(Small()).(msg := [0xEC, 0xEC, 0xEC, 0xEC])
            && FlushOut(v)[1] != Faithful(Small())
  {
    ThreeRecords(Filled(255), Filled(220), Small());
    EndsTheRing(RingView(512, 272, [Filled(220), Small()], true, 3, 1));
  }

  lemma EndsTheRing(v: RingView)
    requires v.size == 512 && v.tail == 272 && |v.recs| == 2 && Size(v.recs[0]) == 232 && |v.recs[1].payload| == 4
    ensures InOrder(v) && PositionOf(v, 1) == 504
    ensures |FlushOut(v)| == 2 && FlushOut(v)[1] == Faithful(v.recs[1]).(msg := [0xEC, 0xEC, 0xEC, 0xEC])
  {
    var b, c := v.recs[0], v.recs[1];
    TotalTwo(b, c);
    assert v.recs == [b, c] && v.recs[..1] == [b];
    assert Wrap(v.tail) == v.tail && Wrap(HeadOf(v)) == HeadOf(v);
    DeliveredAt(v, 1);
    assert Text(512, 504, c.payload) == [0xEC, 0xEC, 0xEC, 0xEC];
  }
}
