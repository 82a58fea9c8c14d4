// How often a writer tries, what the two counters count, and what a writer does while the others stand still.

module LogCounters {
  import opened Arith
  import opened LogRecords
  import opened LogWriters

  // ---- Tries ----

  /** Between the first test of the fullness and the reservation, or the return. */
  predicate Trying(pc: Pc) {
    pc.Check? || pc.ReadTag? || pc.SwapTail? || pc.CountDrop? || pc.SwapHead? || pc.ReloadTail?
  }

  lemma WritersStay(s: State, a: Action)
    ensures |Next(s, a).writers| == |s.writers|
    ensures forall w :: 0 <= w < |s.writers| && w != a.writer ==> Next(s, a).writers[w] == s.writers[w]
  {
  }

  lemma {:induction false} WritersStayAll(s: State, acts: seq<Action>)
    ensures |Run(s, acts).writers| == |s.writers|
  {
    if acts != [] {
      WritersStayAll(s, acts[..|acts| - 1]);
      WritersStay(Run(s, acts[..|acts| - 1]), acts[|acts| - 1]);
    }
  }

  /** The step is a failed exchange of the head by writer `w`. */
  predicate Fails(s: State, a: Action, w: nat) {
    && a.writer == w < |s.writers| && s.writers[w].SwapHead?
    && (a.choice == Fail || (a.choice == Go && Gap(s.head, s.writers[w].head) != 0))
  }

  function Failures(s: State, acts: seq<Action>, w: nat): nat {
    if acts == [] then 0
    else
      var front := acts[..|acts| - 1];
      Failures(s, front, w) + (if Fails(Run(s, front), acts[|acts| - 1], w) then 1 else 0)
  }

  /** From its last load before the loop on, the writer has not left the loop. */
  predicate StaysIn(s: State, acts: seq<Action>, w: nat)
    requires w < |s.writers|
  {
    WritersStayAll(s, acts);
    if acts == [] then s.writers[w].LoadHead?
    else
      StaysIn(s, acts[..|acts| - 1], w) && (Run(s, acts).writers[w].LoadHead? || Trying(Run(s, acts).writers[w]))
  }

  lemma OneTry(s: State, a: Action, w: nat)
    requires w < |s.writers| && a.writer == w && (s.writers[w].LoadHead? || Trying(s.writers[w]))
    ensures |Next(s, a).writers| == |s.writers|
    ensures var pc, now := s.writers[w], Next(s, a).writers[w];
            && (pc.LoadHead? ==> now == pc || (now.Check? && now.retries == 120))
            && (Trying(pc) && !Fails(s, a, w) ==>
                  (Trying(now) && now.retries == pc.retries) || (pc.SwapHead? && now.Filling?))
            && (Fails(s, a, w) ==>
                  && Next(s, a) == Moved(s, w, now)
                  && if pc.retries > 1 then now == ReloadTail(pc.tot, s.head, pc.retries - 1) else now == Idle)
  {
  }

  lemma {:induction false} TriesLeft(s: State, acts: seq<Action>, w: nat)
    requires w < |s.writers| && StaysIn(s, acts, w)
    ensures |Run(s, acts).writers| == |s.writers|
    ensures var pc := Run(s, acts).writers[w];
            if pc.LoadHead? then Failures(s, acts, w) == 0
            else Trying(pc) && Failures(s, acts, w) < 120 && pc.retries == 120 - Failures(s, acts, w)
  {
    if acts != [] {
      var front, a := acts[..|acts| - 1], acts[|acts| - 1];
      TriesLeft(s, front, w);
      WritersStay(Run(s, front), a);
      if a.writer == w {
        OneTry(Run(s, front), a, w);
      }
    }
  }

  /** A writer that has begun to try leaves its loop either with a reservation or, with nothing reserved, at its
      120th failed exchange of the head, whatever the others did; before that a failed exchange makes it load the
      tail again and go on with the head it found. */
  lemma LeavesLoop(s: State, acts: seq<Action>, a: Action, w: nat)
    requires w < |s.writers| && StaysIn(s, acts, w)
    requires Failures(s, acts + [a], w) > Failures(s, acts, w) || !StaysIn(s, acts + [a], w)
    ensures |Run(s, acts + [a]).writers| == |s.writers|
    ensures var t, u, n := Run(s, acts), Run(s, acts + [a]), Failures(s, acts + [a], w);
            && (StaysIn(s, acts + [a], w) ==>
                  n < 120 && u.writers[w].ReloadTail? && u.writers[w].head == t.head && u.head == t.head)
            && (!StaysIn(s, acts + [a], w) ==>
                  || (u.writers[w].Filling? && u.writers[w].start == t.head && u.head == t.head + u.writers[w].tot
                      && u.reserved == t.reserved + [Span(t.head, u.writers[w].tot)])
                  || (u.writers[w].Idle? && n == 120 && u.head == t.head && u.reserved == t.reserved))
  {
    assert (acts + [a])[..|acts|] == acts;
    TriesLeft(s, acts, w);
    WritersStay(Run(s, acts), a);
    if a.writer == w {
      OneTry(Run(s, acts), a, w);
    }
  }

  // ---- The counters ----

  predicate Fills(pc: Pc) {
    pc.Filling?
  }

  predicate Drops(pc: Pc) {
    pc.CountDrop?
  }

  function CountOf(ws: seq<Pc>, p: Pc -> bool): nat {
    if ws == [] then 0 else CountOf(ws[..|ws| - 1], p) + (if p(ws[|ws| - 1]) then 1 else 0)
  }

  lemma {:induction false} CountMoves(ws: seq<Pc>, p: Pc -> bool, w: nat, pc: Pc)
    requires w < |ws|
    ensures CountOf(ws[w := pc], p) + (if p(ws[w]) then 1 else 0) == CountOf(ws, p) + (if p(pc) then 1 else 0)
  {
    var front, last := ws[..|ws| - 1], |ws| - 1;
    if w < last {
      assert ws[w := pc][..last] == front[w := pc];
      CountMoves(front, p, w, pc);
    } else {
      assert ws[w := pc][..last] == front;
    }
  }

  lemma {:induction false} NoneOf(n: nat, p: Pc -> bool)
    requires !p(Idle)
    ensures CountOf(seq(n, _ => Idle), p) == 0
  {
    if n > 0 {
      assert seq(n, _ => Idle)[..n - 1] == seq(n - 1, _ => Idle);
      NoneOf(n - 1, p);
    }
  }

  /** The step moves the tail over a record that its writer found sealed. */
  predicate DropsRecord(s: State, a: Action) {
    && a.writer < |s.writers| && a.choice == Go
    && s.writers[a.writer].SwapTail? && s.writers[a.writer].sealed && Gap(s.tail, s.writers[a.writer].tail) == 0
  }

  function Dropped(s: State, acts: seq<Action>): nat {
    if acts == [] then 0
    else
      var front := acts[..|acts| - 1];
      Dropped(s, front) + (if DropsRecord(Run(s, front), acts[|acts| - 1]) then 1 else 0)
  }

  lemma StepCounts(s: State, a: Action)
    ensures var t := Next(s, a);
            && |t.reserved| + s.sum + CountOf(s.writers, Fills) == |s.reserved| + t.sum + CountOf(t.writers, Fills)
            && t.drops + CountOf(t.writers, Drops)
               == s.drops + CountOf(s.writers, Drops) + (if DropsRecord(s, a) then 1 else 0)
  {
    if a.writer < |s.writers| {
      var now := Next(s, a).writers[a.writer];
      assert Next(s, a).writers == s.writers[a.writer := now];
      CountMoves(s.writers, Fills, a.writer, now);
      CountMoves(s.writers, Drops, a.writer, now);
    }
  }

  /** In every reachable state the count of messages is the number of reservations less those still being filled,
      and the count of drops is the number of sealed records the tail was moved over, less those whose writer has
      not counted them yet. */
  lemma {:induction false} CountersAre(size: nat, writers: nat, acts: seq<Action>)
    ensures var s := Run(Init(size, writers), acts);
            && s.sum + CountOf(s.writers, Fills) == |s.reserved|
            && s.drops + CountOf(s.writers, Drops) == Dropped(Init(size, writers), acts)
  {
    if acts == [] {
      NoneOf(writers, Fills);
      NoneOf(writers, Drops);
    } else {
      CountersAre(size, writers, acts[..|acts| - 1]);
      StepCounts(Run(Init(size, writers), acts[..|acts| - 1]), acts[|acts| - 1]);
    }
  }

  // ---- A writer alone ----

  function WriteCall(w: nat, len: nat): seq<Action> {
    var go := Action(w, Go);
    [Action(w, Start(len)), go, go] + [go, go, go]
  }

  lemma Begins(s: State, w: nat, len: nat, tot: nat)
    requires w < |s.writers| && s.writers[w] == Idle && 1 <= len <= 255 && tot == AlignUp8(HDR_SIZE + len)
    ensures var go := Action(w, Go);
            Run(s, [Action(w, Start(len)), go, go]) == Moved(s, w, Check(tot, s.head, s.tail, RETRIES))
  {
    RunThree(s, Action(w, Start(len)), Action(w, Go), Action(w, Go));
    Loads(s, w, len, tot);
  }

  lemma MovedTwice(s: State, w: nat, a: Pc, b: Pc)
    requires w < |s.writers|
    ensures Moved(Moved(s, w, a), w, b) == Moved(s, w, b)
  {
    assert s.writers[w := a][w := b] == s.writers[w := b];
  }

  lemma Loads(s: State, w: nat, len: nat, tot: nat)
    requires w < |s.writers| && s.writers[w] == Idle && 1 <= len <= 255 && tot == AlignUp8(HDR_SIZE + len)
    ensures var go := Action(w, Go);
            Next(Next(Next(s, Action(w, Start(len))), go), go) == Moved(s, w, Check(tot, s.head, s.tail, RETRIES))
  {
    var go := Action(w, Go);
    assert Next(s, Action(w, Start(len))) == Moved(s, w, LoadTail(tot));
    MovedTwice(s, w, LoadTail(tot), LoadHead(tot, s.tail));
    assert Next(Moved(s, w, LoadTail(tot)), go) == Moved(s, w, LoadHead(tot, s.tail));
    MovedTwice(s, w, LoadHead(tot, s.tail), Check(tot, s.head, s.tail, RETRIES));
  }

  lemma Reserves(s: State, w: nat, tot: nat)
    requires w < |s.writers| && s.writers[w] == Check(tot, s.head, s.tail, RETRIES)
    requires !Full(s.size, tot, s.head, s.tail)
    ensures var go := Action(w, Go);
            Next(Next(s, go), go)
            == Moved(s, w, Filling(s.head, tot)).(head := s.head + tot, reserved := s.reserved + [Span(s.head, tot)])
  {
    var go := Action(w, Go);
    var a := Moved(s, w, SwapHead(tot, s.head, s.tail, RETRIES));
    assert Next(s, go) == a;
    assert Gap(s.head, s.head) == 0;
    assert a.writers[w := Filling(s.head, tot)] == s.writers[w := Filling(s.head, tot)];
  }

  lemma Ends(s: State, w: nat, tot: nat)
    requires w < |s.writers| && s.writers[w] == Check(tot, s.head, s.tail, RETRIES)
    requires !Full(s.size, tot, s.head, s.tail)
    ensures var go := Action(w, Go);
            Run(s, [go, go, go])
            == Moved(s, w, Idle).(head := s.head + tot, sum := s.sum + 1, reserved := s.reserved + [Span(s.head, tot)])
  {
    RunThree(s, Action(w, Go), Action(w, Go), Action(w, Go));
    Reserves(s, w, tot);
    FillsUp(s, w, tot);
  }

  lemma FillsUp(s: State, w: nat, tot: nat)
    requires w < |s.writers|
    ensures Next(Moved(s, w, Filling(s.head, tot)).(head := s.head + tot, reserved := s.reserved + [Span(s.head, tot)]),
                 Action(w, Go))
            == Moved(s, w, Idle).(head := s.head + tot, sum := s.sum + 1, reserved := s.reserved + [Span(s.head, tot)])
  {
    MovedTwice(s, w, Filling(s.head, tot), Idle);
  }

  /** A message of `len` bytes by a writer that nobody disturbs, when it fits: it reserves the header of 12 bytes, the
      message and what makes that a multiple of eight, from the head on, fills it and counts it. */
  lemma WriteAlone(s: State, w: nat, len: nat, tot: nat)
    requires w < |s.writers| && s.writers[w] == Idle && 1 <= len <= 255
    requires tot % 8 == 0 && 12 + len <= tot < 20 + len
    requires s.tail <= s.head && s.head + tot - s.tail <= s.size < U32
    ensures Run(s, WriteCall(w, len))
            == s.(head := s.head + tot, sum := s.sum + 1, reserved := s.reserved + [Span(s.head, tot)])
  {
    Aligned(12 + len, tot);
    GapIs(s.head + tot, s.tail);
    Writes(s, w, len, tot);
  }

  lemma Writes(s: State, w: nat, len: nat, tot: nat)
    requires w < |s.writers| && s.writers[w] == Idle && 1 <= len <= 255 && tot == AlignUp8(HDR_SIZE + len)
    requires !Full(s.size, tot, s.head, s.tail)
    ensures Run(s, WriteCall(w, len))
            == s.(head := s.head + tot, sum := s.sum + 1, reserved := s.reserved + [Span(s.head, tot)])
  {
    var go, m := Action(w, Go), Moved(s, w, Check(tot, s.head, s.tail, RETRIES));
    Begins(s, w, len, tot);
    Closes(s, m, w, tot);
    RunAppend(s, [Action(w, Start(len)), go, go], [go, go, go]);
  }

  lemma Closes(s: State, m: State, w: nat, tot: nat)
    requires w < |s.writers| && s.writers[w] == Idle && m == Moved(s, w, Check(tot, s.head, s.tail, RETRIES))
    requires !Full(s.size, tot, s.head, s.tail)
    ensures Run(m, [Action(w, Go), Action(w, Go), Action(w, Go)])
            == s.(head := s.head + tot, sum := s.sum + 1, reserved := s.reserved + [Span(s.head, tot)])
  {
    assert m.writers[w := Idle] == s.writers;
    Ends(m, w, tot);
  }

  lemma Aligned(n: nat, tot: nat)
    requires tot % 8 == 0 && n <= tot < n + 8
    ensures AlignUp8(n) == tot
  {
  }

  lemma GapIs(a: nat, b: nat)
    requires b <= a < b + U32
    ensures Gap(a, b) == a - b
  {
  }

  /** A turn of the drop loop that nobody disturbs: over a sealed record by what its header says, or else to the
      next multiple of eight but one. */
  lemma DropAlone(s: State, w: nat, sealed: bool, len: nat, pad: nat) returns (next: nat)
    requires w < |s.writers| && s.writers[w].Check? && s.writers[w].tail == s.tail && len <= 255 && pad <= 255
    requires var pc := s.writers[w]; Gap(pc.head + pc.tot, pc.tail) > s.size
    ensures sealed ==> next == s.tail + 12 + len + pad
    ensures !sealed ==> next % 8 == 0 && s.tail + 8 <= next < s.tail + 16
    ensures var go, pc := Action(w, Go), s.writers[w];
            Run(s, [go, Action(w, Read(sealed, len, pad)), go])
            == Moved(s, w, if sealed then CountDrop(pc.tot, pc.head, next, pc.retries)
                           else Check(pc.tot, pc.head, next, pc.retries)).(tail := next)
  {
    var go, pc := Action(w, Go), s.writers[w];
    var step := if sealed then HDR_SIZE + len + pad else AlignUp8(s.tail + 8) - s.tail;
    next := s.tail + step;
    var t := Moved(s, w, ReadTag(pc.tot, pc.head, s.tail, pc.retries));
    assert Next(s, go) == t;
    var u := Moved(s, w, SwapTail(pc.tot, pc.head, s.tail, pc.retries, step, sealed));
    ReadsHeader(s, t, u, w, sealed, len, pad, pc, step);
    SwapsTail(s, u, w, pc, step, sealed);
    RunThree(s, go, Action(w, Read(sealed, len, pad)), go);
  }

  lemma ReadsHeader(s: State, t: State, u: State, w: nat, sealed: bool, len: nat, pad: nat, pc: Pc, step: nat)
    requires w < |s.writers| && pc.Check? && len <= 255 && pad <= 255
    requires t == Moved(s, w, ReadTag(pc.tot, pc.head, s.tail, pc.retries))
    requires step == if sealed then HDR_SIZE + len + pad else AlignUp8(s.tail + 8) - s.tail
    requires u == Moved(s, w, SwapTail(pc.tot, pc.head, s.tail, pc.retries, step, sealed))
    ensures Next(t, Action(w, Read(sealed, len, pad))) == u
  {
    assert t.writers[w := u.writers[w]] == u.writers;
  }

  lemma SwapsTail(s: State, u: State, w: nat, pc: Pc, step: nat, sealed: bool)
    requires w < |s.writers| && pc.Check?
    requires u == Moved(s, w, SwapTail(pc.tot, pc.head, s.tail, pc.retries, step, sealed))
    ensures Next(u, Action(w, Go))
            == Moved(s, w, if sealed then CountDrop(pc.tot, pc.head, s.tail + step, pc.retries)
                           else Check(pc.tot, pc.head, s.tail + step, pc.retries)).(tail := s.tail + step)
  {
    assert Gap(s.tail, s.tail) == 0;
    var h := if sealed then CountDrop(pc.tot, pc.head, s.tail + step, pc.retries)
             else Check(pc.tot, pc.head, s.tail + step, pc.retries);
    assert u.writers[w := h] == s.writers[w := h];
  }

  /** A failed exchange of the tail, or one that found it moved, goes back to the test with the tail as it is; with
      the count of the drop likewise. */
  lemma BackToTest(s: State, w: nat, choice: Choice)
    requires w < |s.writers|
    ensures var pc, t := s.writers[w], Next(s, Action(w, choice));
            && (pc.SwapTail? && (choice == Fail || (choice == Go && Gap(s.tail, pc.tail) != 0)) ==>
                  t == Moved(s, w, Check(pc.tot, pc.head, s.tail, pc.retries)))
            && (pc.CountDrop? && choice == Go ==>
                  t == Moved(s, w, Check(pc.tot, pc.head, pc.tail, pc.retries)).(drops := s.drops + 1))
            && (pc.ReloadTail? && choice == Go ==> t == Moved(s, w, Check(pc.tot, pc.head, s.tail, pc.retries)))
  {
  }
}
