// Any number of writers reserving space in the log ring, interleaved at every atomic load and
// compare-and-swap. What they read from record bytes is arbitrary. Positions and their copies count all
// bytes ever reserved; the tests and exchanges of the code see only their 32-bit words.

module LogWriters {
  import opened Arith
  import opened LogRecords
  import opened LogQueue
  import opened LogStore

  const RETRIES := 120

  /** Where a writer stands; `tot` is its record size, `head` and `tail` its copies of the positions. */
  datatype Pc =
    | Idle
    | LoadTail(tot: nat)
    | LoadHead(tot: nat, tail: nat)
    | Check(tot: nat, head: nat, tail: nat, retries: int)
    | ReadTag(tot: nat, head: nat, tail: nat, retries: int)
    | SwapTail(tot: nat, head: nat, tail: nat, retries: int, step: nat, sealed: bool)
    | CountDrop(tot: nat, head: nat, tail: nat, retries: int)
    | SwapHead(tot: nat, head: nat, tail: nat, retries: int)
    | ReloadTail(tot: nat, head: nat, retries: int)
    | Filling(start: nat, tot: nat)

  datatype Span = Span(start: nat, tot: nat) {
    function End(): nat { start + tot }
  }

  /** `reserved` is the history of successful reservations. */
  datatype State = State(size: nat, head: nat, tail: nat, drops: nat, sum: nat, writers: seq<Pc>, reserved: seq<Span>)

  /** What the environment decides in a step: a message length, the bytes read, a spurious failure. */
  datatype Choice = Go | Start(len: nat) | Read(sealed: bool, len: nat, pad: nat) | Fail

  datatype Action = Action(writer: nat, choice: Choice)

  /** The 32-bit word of `a - b`; it is zero exactly when `a` and `b` have the same word. */
  function Gap(a: nat, b: nat): (g: nat)
    ensures g < U32
  {
    (a - b) % U32
  }

  /** `head + tot - tail > size` on words. */
  predicate Full(size: nat, tot: nat, head: nat, tail: nat) {
    Gap(head + tot, tail) > size
  }

  function Init(size: nat, writers: nat): State {
    State(size, 0, 0, 0, 0, seq(writers, _ => Idle), [])
  }

  /** Writer `w` after the failed swap of the head, `head` being the value it found. */
  function Retry(tot: nat, head: nat, retries: int): Pc {
    if retries - 1 <= 0 then Idle else ReloadTail(tot, head, retries - 1)
  }

  function Moved(s: State, w: nat, pc: Pc): State
    requires w < |s.writers|
  {
    s.(writers := s.writers[w := pc])
  }

  function Next(s: State, a: Action): State {
    if a.writer >= |s.writers| then s else
    var w := a.writer;
    match (s.writers[w], a.choice)
    case (Idle, Start(len)) =>
      if 1 <= len <= MAX_DATA_SIZE then Moved(s, w, LoadTail(AlignUp8(HDR_SIZE + len))) else s
    case (LoadTail(tot), Go) => Moved(s, w, LoadHead(tot, s.tail))
    case (LoadHead(tot, tail), Go) => Moved(s, w, Check(tot, s.head, tail, RETRIES))
    case (Check(tot, head, tail, r), Go) =>
      Moved(s, w, if Full(s.size, tot, head, tail) then ReadTag(tot, head, tail, r) else SwapHead(tot, head, tail, r))
    case (ReadTag(tot, head, tail, r), Read(sealed, len, pad)) =>
      if len > 255 || pad > 255 then s else
      var step := if sealed then HDR_SIZE + len + pad else AlignUp8(tail + 8) - tail;
      Moved(s, w, SwapTail(tot, head, tail, r, step, sealed))
    case (SwapTail(tot, head, tail, r, step, sealed), Go) =>
      if Gap(s.tail, tail) == 0 then
        var t := s.tail + step;
        Moved(s, w, if sealed then CountDrop(tot, head, t, r) else Check(tot, head, t, r)).(tail := t)
      else Moved(s, w, Check(tot, head, s.tail, r))
    case (SwapTail(tot, head, tail, r, _, _), Fail) => Moved(s, w, Check(tot, head, s.tail, r))
    case (CountDrop(tot, head, tail, r), Go) => Moved(s, w, Check(tot, head, tail, r)).(drops := s.drops + 1)
    case (SwapHead(tot, head, tail, r), Go) =>
      if Gap(s.head, head) == 0 then
        Moved(s, w, Filling(s.head, tot)).(head := s.head + tot, reserved := s.reserved + [Span(s.head, tot)])
      else Moved(s, w, Retry(tot, s.head, r))
    case (SwapHead(tot, head, tail, r), Fail) => Moved(s, w, Retry(tot, s.head, r))
    case (ReloadTail(tot, head, r), Go) => Moved(s, w, Check(tot, head, s.tail, r))
    case (Filling(start, tot), Go) => Moved(s, w, Idle).(sum := s.sum + 1)
    case _ => s
  }

  function Run(s: State, acts: seq<Action>): State {
    if acts == [] then s else Next(Run(s, acts[..|acts| - 1]), acts[|acts| - 1])
  }

  lemma {:induction false} RunAppend(s: State, a: seq<Action>, b: seq<Action>)
    ensures Run(s, a + b) == Run(Run(s, a), b)
  {
    if b == [] {
      assert a + b == a;
    } else {
      assert (a + b)[..|a + b| - 1] == a + b[..|b| - 1];
      RunAppend(s, a, b[..|b| - 1]);
    }
  }

  // ---- The invariant ----

  predicate SpanOk(p: Span) {
    16 <= p.tot <= 272 && p.tot % 8 == 0 && p.start % 8 == 0
  }

  /** Reservations lie end to end from 0 to `head`. */
  predicate Tiles(spans: seq<Span>, head: nat) {
    if spans == [] then head == 0
    else var last := spans[|spans| - 1]; SpanOk(last) && last.End() == head && Tiles(spans[..|spans| - 1], last.start)
  }

  predicate TotOk(tot: nat) {
    16 <= tot <= 272 && tot % 8 == 0
  }

  predicate PcOk(s: State, pc: Pc) {
    match pc
    case Idle => true
    case LoadTail(tot) => TotOk(tot)
    case LoadHead(tot, tail) => TotOk(tot) && tail <= s.tail
    case Check(tot, head, tail, _) => TotOk(tot) && tail <= s.tail && head <= s.head
    case ReadTag(tot, head, tail, _) => TotOk(tot) && tail <= s.tail && head <= s.head
    case SwapTail(tot, head, tail, _, step, _) => TotOk(tot) && tail <= s.tail && head <= s.head && step >= 8
    case CountDrop(tot, head, tail, _) => TotOk(tot) && tail <= s.tail && head <= s.head
    case SwapHead(tot, head, tail, _) =>
      TotOk(tot) && tail <= s.tail && head <= s.head && !Full(s.size, tot, head, tail)
    case ReloadTail(tot, head, _) => TotOk(tot) && head <= s.head
    case Filling(start, tot) => Span(start, tot) in s.reserved
  }

  ghost predicate Inv(s: State) {
    && Tiles(s.reserved, s.head)
    && (forall w :: 0 <= w < |s.writers| ==> PcOk(s, s.writers[w]))
    && (forall v, w :: 0 <= v < w < |s.writers| && s.writers[v].Filling? && s.writers[w].Filling?
          ==> s.writers[v].start != s.writers[w].start)
  }

  lemma {:induction false} TilesBelow(spans: seq<Span>, head: nat, i: nat)
    requires Tiles(spans, head) && i < |spans|
    ensures SpanOk(spans[i]) && spans[i].End() <= head
  {
    if i < |spans| - 1 {
      TilesBelow(spans[..|spans| - 1], spans[|spans| - 1].start, i);
    }
  }

  lemma NextMonotone(s: State, a: Action)
    requires Inv(s)
    ensures s.tail <= Next(s, a).tail && s.head <= Next(s, a).head && s.reserved <= Next(s, a).reserved
  {
    if a.writer < |s.writers| {
      assert PcOk(s, s.writers[a.writer]);
    }
  }

  lemma PcStays(s: State, t: State, pc: Pc)
    requires PcOk(s, pc) && t.size == s.size && s.tail <= t.tail && s.head <= t.head && s.reserved <= t.reserved
    ensures PcOk(t, pc)
  {
  }

  lemma NextPc(s: State, a: Action)
    requires Inv(s) && a.writer < |s.writers|
    ensures var t := Next(s, a);
            |t.writers| == |s.writers| && t.size == s.size && PcOk(t, t.writers[a.writer])
  {
    assert PcOk(s, s.writers[a.writer]);
  }

  lemma NextOthers(s: State, a: Action, w: nat)
    requires w < |s.writers| && w != a.writer
    ensures w < |Next(s, a).writers| && Next(s, a).writers[w] == s.writers[w]
  {
  }

  lemma NextPcs(s: State, a: Action)
    requires Inv(s)
    ensures forall w :: 0 <= w < |Next(s, a).writers| ==> PcOk(Next(s, a), Next(s, a).writers[w])
  {
    var t := Next(s, a);
    if a.writer < |s.writers| {
      NextMonotone(s, a);
      NextPc(s, a);
      forall w | 0 <= w < |t.writers| && w != a.writer
        ensures PcOk(t, t.writers[w])
      {
        NextOthers(s, a, w);
        PcStays(s, t, s.writers[w]);
      }
    }
  }

  lemma NextTiles(s: State, a: Action)
    requires Inv(s)
    ensures Tiles(Next(s, a).reserved, Next(s, a).head)
    ensures var t := Next(s, a);
            t.reserved == s.reserved || (t.reserved == s.reserved + [Span(s.head, t.head - s.head)] && t.head > s.head)
  {
    var t := Next(s, a);
    if a.writer < |s.writers| {
      assert PcOk(s, s.writers[a.writer]);
    }
    if t.reserved != s.reserved {
      assert t.reserved[..|t.reserved| - 1] == s.reserved;
      HeadIsAligned(s.reserved, s.head);
    }
  }

  /** A new filler starts at the old head, behind every earlier reservation. */
  lemma NextFillers(s: State, a: Action)
    requires Inv(s)
    ensures forall v, w :: 0 <= v < w < |Next(s, a).writers|
              && Next(s, a).writers[v].Filling? && Next(s, a).writers[w].Filling?
              ==> Next(s, a).writers[v].start != Next(s, a).writers[w].start
  {
    forall w | 0 <= w < |s.writers| && s.writers[w].Filling?
      ensures s.writers[w].start < s.head
    {
      assert PcOk(s, s.writers[w]);
      var i :| 0 <= i < |s.reserved| && s.reserved[i] == Span(s.writers[w].start, s.writers[w].tot);
      TilesBelow(s.reserved, s.head, i);
    }
  }

  lemma NextKeeps(s: State, a: Action)
    requires Inv(s)
    ensures Inv(Next(s, a))
  {
    NextPcs(s, a);
    NextTiles(s, a);
    NextFillers(s, a);
  }

  lemma HeadIsAligned(spans: seq<Span>, head: nat)
    requires Tiles(spans, head)
    ensures head % 8 == 0
  {
  }

  /** Every reachable state satisfies the invariant, whatever the schedule. */
  lemma {:induction false} RunKeeps(size: nat, writers: nat, acts: seq<Action>)
    ensures Inv(Run(Init(size, writers), acts))
  {
    if acts != [] {
      RunKeeps(size, writers, acts[..|acts| - 1]);
      NextKeeps(Run(Init(size, writers), acts[..|acts| - 1]), acts[|acts| - 1]);
    }
  }

  // ---- Reservations ----

  /** A step that reserves takes exactly the bytes from the old head to the new one. It leaves at most one
      ring length behind the copy of the tail that its writer tested, and so behind the tail, exactly when
      fewer than 2^32 bytes lie between that copy and the new head. */
  lemma ReserveFits(s: State, a: Action)
    requires Inv(s) && s.size < U32 && Next(s, a).head != s.head
    ensures a.writer < |s.writers| && s.writers[a.writer].SwapHead?
    ensures var t, copy := Next(s, a), s.writers[a.writer].tail;
            && t.reserved == s.reserved + [Span(s.head, t.head - s.head)]
            && TotOk(t.head - s.head) && t.tail == s.tail >= copy
            && (t.head - copy <= s.size <==> t.head - copy < U32)
            && (t.head - copy < U32 ==> t.head - t.tail <= s.size)
  {
    var pc := s.writers[a.writer];
    assert PcOk(s, pc);
    SameGap(pc.head, s.head, pc.tot, pc.tail);
  }

  /** Positions with the same word are equally far from a third on words. */
  lemma SameGap(a: nat, b: nat, n: nat, c: nat)
    requires Gap(b, a) == 0
    ensures Gap(b + n, c) == Gap(a + n, c)
    ensures b + n >= c ==> (Gap(b + n, c) == b + n - c <==> b + n - c < U32)
  {
    var k := (b - a) / U32;
    assert b + n - c == a + n - c + k * U32;
  }

  /** Reservations are disjoint, in order. */
  lemma {:induction false} Disjoint(spans: seq<Span>, head: nat, i: nat, j: nat)
    requires Tiles(spans, head) && i < j < |spans|
    ensures SpanOk(spans[i]) && SpanOk(spans[j]) && spans[i].End() <= spans[j].start
  {
    if j < |spans| - 1 {
      Disjoint(spans[..|spans| - 1], spans[|spans| - 1].start, i, j);
    } else {
      TilesBelow(spans[..|spans| - 1], spans[|spans| - 1].start, i);
    }
  }

  /** Every reserved byte position belongs to one reservation. */
  lemma {:induction false} Covered(spans: seq<Span>, head: nat, p: nat) returns (i: nat)
    requires Tiles(spans, head) && p < head
    ensures i < |spans| && spans[i].start <= p < spans[i].End()
    ensures forall j :: 0 <= j < |spans| && spans[j].start <= p < spans[j].End() ==> j == i
  {
    i := |spans| - 1;
    if p < spans[i].start {
      i := Covered(spans[..i], spans[i].start, p);
      forall j | 0 <= j < |spans| && spans[j].start <= p < spans[j].End()
        ensures j == i
      {
        assert j < |spans| - 1 ==> spans[..|spans| - 1][j] == spans[j];
      }
    } else {
      forall j | 0 <= j < |spans| && spans[j].start <= p < spans[j].End()
        ensures j == i
      {
        if j < i {
          Disjoint(spans, head, j, i);
        }
      }
    }
  }

  /** Two reservations that together span at most one ring length share no physical byte. */
  lemma NoSharedByte(size: nat, spans: seq<Span>, head: nat, i: nat, j: nat, a: nat, b: nat)
    requires size > 0 && Tiles(spans, head) && i < j < |spans|
    requires spans[j].End() - spans[i].start <= size
    requires spans[i].start <= a < spans[i].End() && spans[j].start <= b < spans[j].End()
    ensures Index(size, a) != Index(size, b) && a % size != b % size
  {
    Disjoint(spans, head, i, j);
    IndexPlus(size, a, b - a);
    IndexIsRemainder(size, a);
    IndexIsRemainder(size, b);
  }

  predicate InSpan(a: nat, p: Span) {
    p.start <= a < p.End()
  }

  /** Two reservations, the second of which starts less than a ring length after the first, share a physical
      byte exactly when together they span more than one. */
  lemma SharedByteWhen(size: nat, spans: seq<Span>, head: nat, i: nat, j: nat)
    requires size > 0 && Tiles(spans, head) && i < j < |spans| && spans[j].start < spans[i].start + size
    ensures (exists a: nat, b: nat :: InSpan(a, spans[i]) && InSpan(b, spans[j]) && Index(size, a) == Index(size, b))
            <==> spans[j].End() - spans[i].start > size
  {
    if spans[j].End() - spans[i].start > size {
      var a := spans[i].start;
      Disjoint(spans, head, i, j);
      IndexTurns(size, a, 1);
      assert InSpan(a, spans[i]) && InSpan(a + size, spans[j]);
    } else {
      forall a: nat, b: nat | InSpan(a, spans[i]) && InSpan(b, spans[j])
        ensures Index(size, a) != Index(size, b)
      {
        NoSharedByte(size, spans, head, i, j, a, b);
      }
    }
  }

  /** In every reachable state, two writers filling at the same time fill disjoint reservations. */
  lemma FillersDisjoint(size: nat, writers: nat, acts: seq<Action>, v: nat, w: nat)
    requires v < w < writers
    requires var s := Run(Init(size, writers), acts);
             |s.writers| == writers && s.writers[v].Filling? && s.writers[w].Filling?
    ensures var s := Run(Init(size, writers), acts);
            var p, q := s.writers[v], s.writers[w];
            p.start + p.tot <= q.start || q.start + q.tot <= p.start
  {
    RunKeeps(size, writers, acts);
    var s := Run(Init(size, writers), acts);
    var p, q := s.writers[v], s.writers[w];
    assert PcOk(s, p) && PcOk(s, q);
    SpansApart(s.reserved, s.head, Span(p.start, p.tot), Span(q.start, q.tot));
  }

  lemma SpansApart(spans: seq<Span>, head: nat, p: Span, q: Span)
    requires Tiles(spans, head) && p in spans && q in spans && p.start != q.start
    ensures p.End() <= q.start || q.End() <= p.start
  {
    var i :| 0 <= i < |spans| && spans[i] == p;
    var j :| 0 <= j < |spans| && spans[j] == q;
    if i < j {
      Disjoint(spans, head, i, j);
    } else {
      Disjoint(spans, head, j, i);
    }
  }

  // ---- A writer that is overtaken while it drops records ----

  /** In the drop loop with a tail copy beyond the head copy: the loop never reads the head again. */
  predicate Overtaken(pc: Pc) {
    (pc.Check? || pc.ReadTag? || pc.SwapTail? || pc.CountDrop?) && pc.tail > pc.head + pc.tot
  }

  /** Where the word of the tail comes round to one ring length behind `head + tot`. */
  function Limit(size: nat, pc: Pc): int
    requires Overtaken(pc)
  {
    pc.head + pc.tot + U32 - size
  }

  /** At its test an overtaken writer leaves the loop exactly when the word of its tail copy has come round
      to at most one ring length behind the word of `head + tot`. */
  lemma OvertakenLeaves(s: State, w: nat)
    requires w < |s.writers| && s.size < U32
    requires var pc := s.writers[w]; pc.Check? && Overtaken(pc) && pc.tail < pc.head + pc.tot + U32
    ensures var pc, t := s.writers[w], Next(s, Action(w, Go));
            && t == Moved(s, w, t.writers[w])
            && (t.writers[w].SwapHead? <==> pc.tail >= Limit(s.size, pc))
            && (t.writers[w].ReadTag? <==> pc.tail < Limit(s.size, pc))
            && (t.writers[w].ReadTag? ==> Overtaken(t.writers[w]) && Limit(s.size, t.writers[w]) == Limit(s.size, pc))
  {
    GapPast(s.writers[w].head + s.writers[w].tot, s.writers[w].tail);
  }

  lemma GapPast(a: nat, b: nat)
    requires a < b <= a + U32
    ensures Gap(a, b) == U32 - (b - a)
  {
  }

  lemma OvertakenStep(s: State, a: Action, w: nat)
    requires Inv(s) && s.size < U32 && w < |s.writers| && Overtaken(s.writers[w])
    requires s.tail < Limit(s.size, s.writers[w])
    ensures var t := Next(s, a);
            && |t.writers| == |s.writers| && t.size == s.size && Overtaken(t.writers[w])
            && Limit(t.size, t.writers[w]) == Limit(s.size, s.writers[w])
  {
    assert PcOk(s, s.writers[w]);
    GapPast(s.writers[w].head + s.writers[w].tot, s.writers[w].tail);
  }

  /** As long as the tail has not come that far, an overtaken writer neither reserves nor returns, whatever
      the others do. */
  lemma {:induction false} OvertakenUntil(s: State, acts: seq<Action>, w: nat)
    requires Inv(s) && s.size < U32 && w < |s.writers| && Overtaken(s.writers[w])
    requires Run(s, acts).tail < Limit(s.size, s.writers[w])
    ensures var t := Run(s, acts);
            && Inv(t) && |t.writers| == |s.writers| && t.size == s.size && Overtaken(t.writers[w])
            && Limit(t.size, t.writers[w]) == Limit(s.size, s.writers[w])
  {
    if acts != [] {
      var a := acts[..|acts| - 1];
      RunMonotone(s, a, acts[|acts| - 1]);
      OvertakenUntil(s, a, w);
      NextKeeps(Run(s, a), acts[|acts| - 1]);
      OvertakenStep(Run(s, a), acts[|acts| - 1], w);
    }
  }

  /** Neither position ever moves back. */
  lemma RunMonotone(s: State, acts: seq<Action>, a: Action)
    ensures Run(s, acts).tail <= Next(Run(s, acts), a).tail
    ensures Run(s, acts).head <= Next(Run(s, acts), a).head
  {
  }

  /** One turn of the loop, and `n` turns. */
  function Turn(w: nat): seq<Action> {
    [Action(w, Go), Action(w, Read(false, 0, 0)), Action(w, Go)]
  }

  function Turns(w: nat, n: nat): seq<Action> {
    if n == 0 then [] else Turns(w, n - 1) + Turn(w)
  }

  /** The state with the tail and its copy in writer `w` moved on by `n`. */
  function Drained(s: State, w: nat, n: nat): State
    requires w < |s.writers| && s.writers[w].Check?
  {
    var Check(tot, head, _, r) := s.writers[w];
    Moved(s, w, Check(tot, head, s.tail + n, r)).(tail := s.tail + n)
  }

  /** The test of a writer at `pc` finds the ring full while the tail is less than `8 * n` further on. */
  ghost predicate FullFor(size: nat, pc: Pc, n: nat)
    requires pc.Check?
  {
    forall i :: 0 <= i < n ==> Full(size, pc.tot, pc.head, pc.tail + 8 * i)
  }

  /** Alone over unsealed bytes a writer moves the tail by eight bytes a turn while the ring is full. */
  lemma {:induction false} FullDrains(s: State, w: nat, n: nat)
    requires w < |s.writers| && s.tail % 8 == 0
    requires var pc := s.writers[w]; pc.Check? && pc.tail == s.tail && FullFor(s.size, pc, n)
    ensures Run(s, Turns(w, n)) == Drained(s, w, 8 * n)
  {
    if n > 0 {
      FullDrains(s, w, n - 1);
      LastTurn(s, w, n);
      RunThrough(s, Turns(w, n - 1), Turn(w), Drained(s, w, 8 * (n - 1)), Drained(s, w, 8 * n));
    } else {
      assert s.writers[w := s.writers[w]] == s.writers;
    }
  }

  lemma LastTurn(s: State, w: nat, n: nat)
    requires w < |s.writers| && s.tail % 8 == 0 && n > 0
    requires var pc := s.writers[w]; pc.Check? && pc.tail == s.tail && FullFor(s.size, pc, n)
    ensures Run(Drained(s, w, 8 * (n - 1)), Turn(w)) == Drained(s, w, 8 * n)
  {
    assert Full(s.size, s.writers[w].tot, s.writers[w].head, s.tail + 8 * (n - 1));
    TurnDrains(Drained(s, w, 8 * (n - 1)), w);
    DrainedTwice(s, w, 8 * (n - 1), 8);
  }

  /** Scheduled alone an overtaken writer does so until it can leave, past the head and every record. */
  lemma OvertakenDrains(s: State, w: nat, n: nat)
    requires w < |s.writers| && s.size < U32 && s.tail % 8 == 0
    requires var pc := s.writers[w];
             pc.Check? && Overtaken(pc) && pc.tail == s.tail && s.tail + 8 * n < Limit(s.size, pc) + 8
    ensures Run(s, Turns(w, n)) == Drained(s, w, 8 * n)
  {
    var pc := s.writers[w];
    forall i | 0 <= i < n
      ensures Full(s.size, pc.tot, pc.head, pc.tail + 8 * i)
    {
      GapPast(pc.head + pc.tot, pc.tail + 8 * i);
    }
    FullDrains(s, w, n);
  }

  lemma DrainedTwice(s: State, w: nat, m: nat, n: nat)
    requires w < |s.writers| && s.writers[w].Check?
    ensures Drained(Drained(s, w, m), w, n) == Drained(s, w, m + n)
  {
  }

  lemma TurnDrains(s: State, w: nat)
    requires w < |s.writers| && s.tail % 8 == 0
    requires var pc := s.writers[w]; pc.Check? && pc.tail == s.tail && Full(s.size, pc.tot, pc.head, pc.tail)
    ensures Run(s, Turn(w)) == Drained(s, w, 8)
  {
    var Check(tot, head, _, r) := s.writers[w];
    var t := Moved(s, w, ReadTag(tot, head, s.tail, r));
    var u := Moved(s, w, SwapTail(tot, head, s.tail, r, 8, false));
    assert Next(s, Action(w, Go)) == t;
    ReadsUnsealed(s, t, u, w, tot, head, r);
    SwapsUnsealed(s, u, w, tot, head, r);
    RunThree(s, Action(w, Go), Action(w, Read(false, 0, 0)), Action(w, Go));
  }

  lemma ReadsUnsealed(s: State, t: State, u: State, w: nat, tot: nat, head: nat, r: int)
    requires w < |s.writers| && s.tail % 8 == 0
    requires t == Moved(s, w, ReadTag(tot, head, s.tail, r))
    requires u == Moved(s, w, SwapTail(tot, head, s.tail, r, 8, false))
    ensures Next(t, Action(w, Read(false, 0, 0))) == u
  {
    assert AlignUp8(s.tail + 8) == s.tail + 8;
  }

  lemma SwapsUnsealed(s: State, u: State, w: nat, tot: nat, head: nat, r: int)
    requires w < |s.writers| && s.writers[w] == Check(tot, head, s.tail, r)
    requires u == Moved(s, w, SwapTail(tot, head, s.tail, r, 8, false))
    ensures Next(u, Action(w, Go)) == Drained(s, w, 8)
  {
    assert Gap(s.tail, s.tail) == 0;
  }

  lemma RunCons(s: State, a: Action, acts: seq<Action>)
    ensures Run(s, [a] + acts) == Run(Next(s, a), acts)
  {
    RunAppend(s, [a], acts);
    assert [a][..0] == [];
  }

  lemma RunTwo(s: State, a: Action, b: Action)
    ensures Run(s, [a, b]) == Next(Next(s, a), b)
  {
    RunCons(s, a, [b]);
    RunCons(Next(s, a), b, []);
    assert [a] + [b] == [a, b] && [b] + [] == [b];
  }

  lemma RunThree(s: State, a: Action, b: Action, c: Action)
    ensures Run(s, [a, b, c]) == Next(Next(Next(s, a), b), c)
  {
    RunCons(s, a, [b, c]);
    RunTwo(Next(s, a), b, c);
    assert [a] + [b, c] == [a, b, c];
  }

  /** Writer 1 stores one record of 272 bytes in a ring of 512, first without and then with a drop. */
  const FIRST_WRITE: seq<Action> :=
    [Action(1, Start(255)), Action(1, Go), Action(1, Go), Action(1, Go), Action(1, Go), Action(1, Go)]

  const DROP_ONE: seq<Action> :=
    [Action(1, Start(255)), Action(1, Go), Action(1, Go), Action(1, Go), Action(1, Read(true, 255, 5)), Action(1, Go)]

  const FINISH: seq<Action> :=
    [Action(1, Go), Action(1, Go), Action(1, Go), Action(1, Go), Action(1, Go), Action(1, Go)]

  /** Writer 0 copies both positions and finds the ring full; later it tries to move the tail. */
  const STALL: seq<Action> :=
    [Action(0, Start(255)), Action(0, Go), Action(0, Go), Action(0, Go)]

  const RESUME: seq<Action> := [Action(0, Read(true, 255, 5)), Action(0, Go)]

  const RESERVE: seq<Action> := [Action(0, Go), Action(0, Go), Action(0, Go)]

  /** `n` such records, each in place of the one before. */
  function Laps(n: nat): seq<Action> {
    if n == 0 then [] else Laps(n - 1) + (DROP_ONE + FINISH)
  }

  const OVERTAKING: seq<Action> := FIRST_WRITE + STALL + Laps(3) + RESUME

  /** The state between the two halves of such a write, and the state after it. */
  function TailMoved(s: State): State
    requires |s.writers| == 2
  {
    s.(tail := s.tail + 272, writers := s.writers[1 := CountDrop(272, s.head, s.tail + 272, RETRIES)])
  }

  function Replaced(s: State): State {
    s.(head := s.head + 272, tail := s.tail + 272, drops := s.drops + 1, sum := s.sum + 1,
       reserved := s.reserved + [Span(s.head, 272)])
  }

  /** Writer 1 alone with one record in the ring, at its test of the fullness, and past it. */
  predicate OneRecord(s: State) {
    s.size == 512 && |s.writers| == 2 && s.writers[1] == Idle && s.head == s.tail + 272
  }

  lemma DropStarts(s: State)
    requires OneRecord(s)
    ensures Run(s, DROP_ONE) == TailMoved(s)
  {
    var go := Action(1, Go);
    var m := Moved(s, 1, Check(272, s.head, s.tail, RETRIES));
    assert AlignUp8(HDR_SIZE + 255) == 272;
    RunThree(s, Action(1, Start(255)), go, go);
    assert Run(s, [Action(1, Start(255)), go, go]) == m;
    DropTurn(m);
    RunThrough(s, [Action(1, Start(255)), go, go], [go, Action(1, Read(true, 255, 5)), go], m, TailMoved(s));
    assert [Action(1, Start(255)), go, go] + [go, Action(1, Read(true, 255, 5)), go] == DROP_ONE;
  }

  lemma DropTurn(s: State)
    requires |s.writers| == 2 && s.size == 512 && s.head == s.tail + 272
    requires s.writers[1] == Check(272, s.head, s.tail, RETRIES)
    ensures Run(s, [Action(1, Go), Action(1, Read(true, 255, 5)), Action(1, Go)]) == TailMoved(s)
  {
    assert Gap(s.head + 272, s.tail) == 544;
    RunThree(s, Action(1, Go), Action(1, Read(true, 255, 5)), Action(1, Go));
  }

  lemma DropFinishes(s: State)
    requires OneRecord(s)
    ensures Run(TailMoved(s), FINISH) == Replaced(s)
  {
    var go, m := Action(1, Go), TailMoved(s);
    var f := m.(drops := s.drops + 1, head := s.head + 272, reserved := s.reserved + [Span(s.head, 272)],
                writers := s.writers[1 := Filling(s.head, 272)]);
    assert Gap(s.head + 272, s.tail + 272) == 272;
    RunThree(m, go, go, go);
    assert Run(m, [go, go, go]) == f;
    RunThree(f, go, go, go);
    assert m.writers[1 := Idle] == s.writers;
    RunThrough(m, [go, go, go], [go, go, go], f, Replaced(s));
    assert [go, go, go] + [go, go, go] == FINISH;
  }

  lemma WriteWithDrop(s: State)
    requires OneRecord(s)
    ensures Run(s, DROP_ONE + FINISH) == Replaced(s)
  {
    DropStarts(s);
    DropFinishes(s);
    RunThrough(s, DROP_ONE, FINISH, TailMoved(s), Replaced(s));
  }

  lemma RunThrough(s: State, acts: seq<Action>, more: seq<Action>, m: State, r: State)
    requires Run(s, acts) == m && Run(m, more) == r
    ensures Run(s, acts + more) == r
  {
    RunAppend(s, acts, more);
  }

  /** Writer 1 stores a record; writer 0 copies the positions, finds the ring full and stalls. */
  lemma StallReachable()
    ensures Run(Init(512, 2), FIRST_WRITE + STALL)
            == State(512, 272, 0, 0, 1, [ReadTag(272, 272, 0, RETRIES), Idle], [Span(0, 272)])
  {
    FirstWrite();
    var s, g := Run(Init(512, 2), FIRST_WRITE), Action(0, Go);
    assert AlignUp8(HDR_SIZE + 255) == 272;
    RunTwo(s, Action(0, Start(255)), g);
    var m := Moved(s, 0, LoadHead(272, 0));
    assert Run(s, [Action(0, Start(255)), g]) == m;
    assert Gap(544, 0) == 544;
    RunTwo(m, g, g);
    RunThrough(s, [Action(0, Start(255)), g], [g, g], m, Run(m, [g, g]));
    assert [Action(0, Start(255)), g] + [g, g] == STALL;
    RunAppend(Init(512, 2), FIRST_WRITE, STALL);
  }

  lemma FirstWrite()
    ensures Run(Init(512, 2), FIRST_WRITE) == State(512, 272, 0, 0, 1, [Idle, Idle], [Span(0, 272)])
  {
    FirstWriteFrom(Init(512, 2));
  }

  /** Writer 1 stores its first record, wherever writer 0 stands. */
  lemma FirstWriteFrom(s: State)
    requires s.size == 512 && |s.writers| == 2 && s.head == s.tail == 0 && s.writers[1] == Idle
    ensures Run(s, FIRST_WRITE) == s.(head := 272, sum := s.sum + 1, reserved := s.reserved + [Span(0, 272)])
  {
    var go := Action(1, Go);
    assert AlignUp8(HDR_SIZE + 255) == 272;
    RunThree(s, Action(1, Start(255)), go, go);
    var m := Moved(s, 1, Check(272, 0, 0, RETRIES));
    assert Run(s, [Action(1, Start(255)), go, go]) == m;
    RunThree(m, go, go, go);
    assert s.writers[1 := Idle] == s.writers;
    RunThrough(s, [Action(1, Start(255)), go, go], [go, go, go], m, Run(m, [go, go, go]));
    assert [Action(1, Start(255)), go, go] + [go, go, go] == FIRST_WRITE;
  }

  lemma TailCopied()
    ensures Run(Init(512, 2), COPIES_TAIL) == State(512, 272, 0, 0, 1, [LoadHead(272, 0), Idle], [Span(0, 272)])
  {
    var s := Init(512, 2);
    assert AlignUp8(HDR_SIZE + 255) == 272;
    RunTwo(s, Action(0, Start(255)), Action(0, Go));
    FirstWriteFrom(Run(s, [Action(0, Start(255)), Action(0, Go)]));
    RunAppend(s, [Action(0, Start(255)), Action(0, Go)], FIRST_WRITE);
  }

  lemma {:induction false} LapsRun(s: State, n: nat)
    requires OneRecord(s)
    ensures var t := Run(s, Laps(n));
            OneRecord(t) && t.tail == s.tail + 272 * n && t.writers == s.writers && t.size == s.size
  {
    if n > 0 {
      LapsRun(s, n - 1);
      WriteWithDrop(Run(s, Laps(n - 1)));
      RunAppend(s, Laps(n - 1), DROP_ONE + FINISH);
    }
  }

  /** Three more records later its tail copy, refreshed by the failed swap, is past its head copy. */
  lemma OvertakenReachable()
    ensures var s := Run(Init(512, 2), OVERTAKING);
            s.size == 512 && s.tail == 816 && s.head == 1088 && s.writers == [Check(272, 272, 816, RETRIES), Idle]
  {
    var p, s := FIRST_WRITE + STALL, Init(512, 2);
    StallReachable();
    LapsRunFrom(s, p, 3);
    Resumed(Run(s, p + Laps(3)));
    RunAppend(s, p + Laps(3), RESUME);
  }

  lemma LapsRunFrom(s: State, p: seq<Action>, n: nat)
    requires OneRecord(Run(s, p))
    ensures var r, t := Run(s, p), Run(s, p + Laps(n));
            OneRecord(t) && t.tail == r.tail + 272 * n && t.writers == r.writers && t.size == r.size
  {
    RunAppend(s, p, Laps(n));
    LapsRun(Run(s, p), n);
  }

  lemma Resumed(s: State)
    requires |s.writers| == 2 && s.writers[0] == ReadTag(272, 272, 0, RETRIES) && s.tail == 816
    ensures Run(s, RESUME) == Moved(s, 0, Check(272, 272, 816, RETRIES))
  {
    RunTwo(s, Action(0, Read(true, 255, 5)), Action(0, Go));
  }

  /** So the tail does not stay behind the head: alone, the writer moves it eight bytes a turn to more than
      2^32 - 1100 bytes past the head, and leaves its loop after exactly that many turns. */
  lemma TailPassesHead(n: nat)
    requires n <= U32 / 8 - 98
    ensures var s := Run(Init(512, 2), OVERTAKING + Turns(0, n));
            && s.head == 1088 && s.tail == 816 + 8 * n && s.writers == [Check(272, 272, s.tail, RETRIES), Idle]
            && (Next(s, Action(0, Go)).writers[0].SwapHead? <==> n == U32 / 8 - 98)
  {
    OvertakenReachable();
    var o := Run(Init(512, 2), OVERTAKING);
    DrainsOn(o, n);
    RunThrough(Init(512, 2), OVERTAKING, Turns(0, n), o, Run(o, Turns(0, n)));
  }

  lemma DrainsOn(o: State, n: nat)
    requires o.size == 512 && o.tail == 816 && o.head == 1088 && o.writers == [Check(272, 272, 816, RETRIES), Idle]
    requires n <= U32 / 8 - 98
    ensures var s := Run(o, Turns(0, n));
            && s.head == 1088 && s.tail == 816 + 8 * n && s.writers == [Check(272, 272, s.tail, RETRIES), Idle]
            && (Next(s, Action(0, Go)).writers[0].SwapHead? <==> n == U32 / 8 - 98)
  {
    OvertakenDrains(o, 0, n);
    DrainedIs(o, n);
    LeavesAt(Drained(o, 0, 8 * n), n);
  }

  lemma DrainedIs(o: State, n: nat)
    requires o.size == 512 && o.tail == 816 && o.head == 1088 && o.writers == [Check(272, 272, 816, RETRIES), Idle]
    ensures var s := Drained(o, 0, 8 * n);
            && s.size == 512 && s.head == 1088 && s.tail == 816 + 8 * n
            && s.writers == [Check(272, 272, 816 + 8 * n, RETRIES), Idle]
  {
  }

  lemma LeavesAt(s: State, n: nat)
    requires s.size == 512 && s.writers == [Check(272, 272, 816 + 8 * n, RETRIES), Idle] && n <= U32 / 8 - 98
    ensures Next(s, Action(0, Go)).writers[0].SwapHead? <==> n == U32 / 8 - 98
  {
    OvertakenLeaves(s, 0);
  }

  // ---- A writer whose copy of the tail is a whole turn of the words old ----

  /** Writer 0 copies the tail and stalls; writer 1 stores its first record, then `n` in place of it. */
  const COPIES_TAIL: seq<Action> := [Action(0, Start(255)), Action(0, Go)] + FIRST_WRITE

  /** After 2^28 - 1 records of writer 1 the test of writer 0 sees an empty ring: it reserves 272 bytes where
      272 are taken, and 544 bytes are in use in a ring of 512. */
  lemma StaleTailOverfills()
    ensures var s := Run(Init(512, 2), COPIES_TAIL + Laps(U32 / 16 - 2) + RESERVE);
            && s.head == 17 * U32 && s.tail == 17 * U32 - 544 && |s.writers| == 2
            && s.writers[0] == Filling(17 * U32 - 272, 272)
  {
    StaleTail(U32 / 16 - 2);
  }

  lemma StaleTail(n: nat)
    requires n == U32 / 16 - 2
    ensures var s := Run(Init(512, 2), COPIES_TAIL + Laps(n) + RESERVE);
            && s.head == 17 * U32 && s.tail == 17 * U32 - 544 && |s.writers| == 2
            && s.writers[0] == Filling(17 * U32 - 272, 272)
  {
    StaleLaps(n);
    var m := Run(Init(512, 2), COPIES_TAIL + Laps(n));
    Overfilled(m);
    RunThrough(Init(512, 2), COPIES_TAIL + Laps(n), RESERVE, m, Run(m, RESERVE));
  }

  lemma StaleLaps(n: nat)
    requires n == U32 / 16 - 2
    ensures var m := Run(Init(512, 2), COPIES_TAIL + Laps(n));
            && m.head == 17 * U32 - 272 && m.tail == 17 * U32 - 544 && |m.writers| == 2
            && m.writers[0] == LoadHead(272, 0)
  {
    TailCopied();
    LapsRunFrom(Init(512, 2), COPIES_TAIL, n);
  }

  lemma Overfilled(s: State)
    requires |s.writers| == 2 && s.writers[0] == LoadHead(272, 0) && s.head == 17 * U32 - 272
    ensures var t := Run(s, RESERVE);
            t.head == 17 * U32 && t.tail == s.tail && |t.writers| == 2 && t.writers[0] == Filling(17 * U32 - 272, 272)
  {
    assert Gap(s.head + 272, 0) == 0;
    RunThree(s, Action(0, Go), Action(0, Go), Action(0, Go));
  }

  // ---- Two writers that fill the same bytes ----

  /** Writer 0 reserves; writer 1 finds the ring full, drops 32 unsealed bytes of it and reserves as well. */
  const HOLD: seq<Action> := [Action(0, Start(255)), Action(0, Go), Action(0, Go), Action(0, Go), Action(0, Go)]

  const ENTER: seq<Action> := [Action(1, Start(255)), Action(1, Go), Action(1, Go)]

  const TAKE: seq<Action> := [Action(1, Go), Action(1, Go)]

  lemma Holds()
    ensures Run(Init(512, 2), HOLD) == State(512, 272, 0, 0, 0, [Filling(0, 272), Idle], [Span(0, 272)])
  {
    var s, go := Init(512, 2), Action(0, Go);
    assert AlignUp8(HDR_SIZE + 255) == 272;
    RunThree(s, Action(0, Start(255)), go, go);
    var m := Moved(s, 0, Check(272, 0, 0, RETRIES));
    assert Run(s, [Action(0, Start(255)), go, go]) == m;
    RunTwo(m, go, go);
    RunThrough(s, [Action(0, Start(255)), go, go], [go, go], m, Run(m, [go, go]));
    assert [Action(0, Start(255)), go, go] + [go, go] == HOLD;
  }

  lemma Enters(s: State)
    requires |s.writers| == 2 && s.writers[1] == Idle
    ensures Run(s, ENTER) == Moved(s, 1, Check(272, s.head, s.tail, RETRIES))
  {
    assert AlignUp8(HDR_SIZE + 255) == 272;
    RunThree(s, Action(1, Start(255)), Action(1, Go), Action(1, Go));
  }

  lemma Takes(s: State)
    requires |s.writers| == 2 && s.size == 512 && s.head == 272 && s.tail == 32
    requires s.writers[1] == Check(272, 272, 32, RETRIES)
    ensures Run(s, TAKE).writers == s.writers[1 := Filling(272, 272)]
    ensures Run(s, TAKE).reserved == s.reserved + [Span(272, 272)] && Run(s, TAKE).size == 512
  {
    assert Gap(544, 32) == 512;
    RunTwo(s, Action(1, Go), Action(1, Go));
  }

  /** So two writers can fill reservations at the same time that share bytes of the buffer: the last 32
      bytes of the second are the first 32 of the first. */
  lemma FillersShareBytes()
    ensures var s := Run(Init(512, 2), HOLD + ENTER + Turns(1, 4) + TAKE);
            s.size == 512 && s.writers == [Filling(0, 272), Filling(272, 272)]
    ensures forall a: nat, b: nat :: a < 32 && b == 512 + a ==> b < 272 + 272 && Index(512, a) == Index(512, b)
  {
    FillersEnter();
  }

  /** Writer 1 at its test, writer 0 holding the first 272 bytes, `n` bytes behind the tail. */
  function Entered(n: nat): State {
    State(512, 272, n, 0, 0, [Filling(0, 272), Check(272, 272, n, RETRIES)], [Span(0, 272)])
  }

  lemma EnteredAfter()
    ensures Run(Init(512, 2), HOLD + ENTER) == Entered(0)
  {
    Holds();
    var s := Run(Init(512, 2), HOLD);
    Enters(s);
    RunThrough(Init(512, 2), HOLD, ENTER, s, Run(s, ENTER));
  }

  lemma DropsFour()
    ensures Run(Entered(0), Turns(1, 4)) == Entered(32)
  {
    forall k | 0 <= k < 4
      ensures Full(512, 272, 272, 0 + 8 * k)
    {
      assert Gap(544, 8 * k) == 544 - 8 * k;
    }
    FullDrains(Entered(0), 1, 4);
    assert Drained(Entered(0), 1, 32) == Entered(32);
  }

  lemma FillersEnter()
    ensures var s := Run(Init(512, 2), HOLD + ENTER + Turns(1, 4) + TAKE);
            s.size == 512 && s.writers == [Filling(0, 272), Filling(272, 272)]
  {
    EnteredAfter();
    DropsFour();
    RunThrough(Init(512, 2), HOLD + ENTER, Turns(1, 4), Entered(0), Entered(32));
    Takes(Entered(32));
    RunThrough(Init(512, 2), HOLD + ENTER + Turns(1, 4), TAKE, Entered(32), Run(Entered(32), TAKE));
  }
}
