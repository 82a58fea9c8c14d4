// The single-producer single-consumer character queue, interleaved at every load, buffer access and store.

module Fifos {
  import opened Arith

  const FIFO_SIZE := 256

  /** `i & (FIFO_SIZE - 1)`: the remainder modulo the buffer size. */
  function Mask(i: nat): (r: nat)
    ensures r < FIFO_SIZE
  {
    if i < FIFO_SIZE then i else Mask(i - FIFO_SIZE)
  }

  lemma {:induction false} MaskNext(i: nat)
    ensures Mask(Mask(i) + 1) == Mask(i + 1)
  {
    if i >= FIFO_SIZE {
      MaskNext(i - FIFO_SIZE);
    }
  }

  /** Where the producer stands in fifo_push: `head` and `next` are its locals. */
  datatype Producer =
    | PIdle
    | PLoadHead(c: Byte)
    | PLoadTail(c: Byte, head: nat)
    | PWrite(c: Byte, head: nat)
    | PStore(c: Byte, head: nat)

  /** Where the consumer stands in fifo_pop or fifo_is_empty. */
  datatype Consumer =
    | CIdle
    | CLoadTail
    | CLoadHead(tail: nat)
    | CRead(tail: nat)
    | CStore(tail: nat, c: Byte)
    | ELoadHead
    | ELoadTail(head: nat, wasEmpty: bool)

  /** What a finished call did; `held` is the number of characters queued when it loaded the other index. */
  datatype Event =
    | Accepted(c: Byte)
    | Dropped(c: Byte, held: int)
    | Popped(c: Byte)
    | NothingToPop(held: int)
    | SaidEmpty(answer: bool, wasEmpty: bool)

  /** Memory, the two threads, and the history of characters stored and removed and of finished calls. */
  datatype State = State(
    buffer: seq<Byte>, head: nat, tail: nat, producer: Producer, consumer: Consumer,
    accepted: seq<Byte>, removed: seq<Byte>, events: seq<Event>)

  datatype Action = Push(c: Byte) | Pop | AskEmpty | ProducerStep | ConsumerStep

  function Init(): State {
    State(seq(FIFO_SIZE, _ => 0), 0, 0, PIdle, CIdle, [], [], [])
  }

  function Held(s: State): int {
    |s.accepted| - |s.removed|
  }

  function ProducerNext(s: State): State {
    match s.producer
    case PIdle => s
    case PLoadHead(c) => s.(producer := PLoadTail(c, s.head))
    case PLoadTail(c, head) =>
      if Mask(head + 1) != s.tail then s.(producer := PWrite(c, head))
      else s.(producer := PIdle, events := s.events + [Dropped(c, Held(s))])
    case PWrite(c, head) => s.(buffer := Set(s.buffer, head, c), producer := PStore(c, head))
    case PStore(c, head) =>
      s.(head := Mask(head + 1), producer := PIdle, accepted := s.accepted + [c], events := s.events + [Accepted(c)])
  }

  function ConsumerNext(s: State): State {
    match s.consumer
    case CIdle => s
    case CLoadTail => s.(consumer := CLoadHead(s.tail))
    case CLoadHead(tail) =>
      if tail == s.head then s.(consumer := CIdle, events := s.events + [NothingToPop(Held(s))])
      else s.(consumer := CRead(tail))
    case CRead(tail) => s.(consumer := CStore(tail, Get(s.buffer, tail)))
    case CStore(tail, c) =>
      s.(tail := Mask(tail + 1), consumer := CIdle, removed := s.removed + [c], events := s.events + [Popped(c)])
    case ELoadHead => s.(consumer := ELoadTail(s.head, Held(s) == 0))
    case ELoadTail(head, wasEmpty) =>
      s.(consumer := CIdle, events := s.events + [SaidEmpty(head == s.tail, wasEmpty)])
  }

  // Buffer accesses; every index a reachable state uses is inside the buffer.
  function Set(b: seq<Byte>, i: nat, c: Byte): seq<Byte> {
    if i < |b| then b[i := c] else b
  }

  function Get(b: seq<Byte>, i: nat): Byte {
    if i < |b| then b[i] else 0
  }

  function Next(s: State, a: Action): State {
    match a
    case Push(c) => if s.producer.PIdle? then s.(producer := PLoadHead(c)) else s
    case Pop => if s.consumer.CIdle? then s.(consumer := CLoadTail) else s
    case AskEmpty => if s.consumer.CIdle? then s.(consumer := ELoadHead) else s
    case ProducerStep => ProducerNext(s)
    case ConsumerStep => ConsumerNext(s)
  }

  // ---- What every step keeps ----

  ghost predicate Queue(s: State) {
    && |s.buffer| == FIFO_SIZE && 0 <= Held(s) <= FIFO_SIZE - 1
    && s.removed == s.accepted[..|s.removed|]
    && s.head == Mask(|s.accepted|) && s.tail == Mask(|s.removed|)
    && forall i :: |s.removed| <= i < |s.accepted| ==> s.buffer[Mask(i)] == s.accepted[i]
  }

  ghost predicate ProducerOk(s: State)
    requires |s.buffer| == FIFO_SIZE && s.head < FIFO_SIZE
  {
    match s.producer
    case PIdle => true
    case PLoadHead(_) => true
    case PLoadTail(_, head) => head == s.head
    case PWrite(_, head) => head == s.head && Held(s) < FIFO_SIZE - 1
    case PStore(c, head) => head == s.head && Held(s) < FIFO_SIZE - 1 && s.buffer[head] == c
  }

  ghost predicate ConsumerOk(s: State) {
    match s.consumer
    case CIdle => true
    case CLoadTail => true
    case CLoadHead(tail) => tail == s.tail
    case CRead(tail) => tail == s.tail && Held(s) > 0
    case CStore(tail, c) => tail == s.tail && |s.removed| < |s.accepted| && c == s.accepted[|s.removed|]
    case ELoadHead => true
    case ELoadTail(head, wasEmpty) => wasEmpty <==> head == s.tail
  }

  predicate EventOk(e: Event) {
    match e
    case Dropped(_, held) => held == FIFO_SIZE - 1
    case NothingToPop(held) => held == 0
    case SaidEmpty(answer, wasEmpty) => answer == wasEmpty
    case _ => true
  }

  ghost predicate Inv(s: State) {
    Queue(s) && ProducerOk(s) && ConsumerOk(s) && forall i :: 0 <= i < |s.events| ==> EventOk(s.events[i])
  }

  /** Of numbers at most 256 apart only equal ones and those exactly 256 apart share a buffer index. */
  lemma {:induction false} MaskDiffers(i: nat, j: nat)
    requires i <= j <= i + FIFO_SIZE
    ensures Mask(i) == Mask(j) <==> i == j || j == i + FIFO_SIZE
  {
    if i >= FIFO_SIZE {
      MaskDiffers(i - FIFO_SIZE, j - FIFO_SIZE);
    }
  }

  lemma LoadTailKeeps(s: State)
    requires Inv(s) && s.producer.PLoadTail?
    ensures Inv(ProducerNext(s))
  {
    MaskNext(|s.accepted|);
    MaskDiffers(|s.removed|, |s.accepted| + 1);
  }

  lemma WriteKeeps(s: State)
    requires Inv(s) && s.producer.PWrite?
    ensures Inv(ProducerNext(s))
  {
    var n := |s.accepted|;
    forall i | |s.removed| <= i < n
      ensures Mask(i) != Mask(n)
    {
      MaskDiffers(i, n);
    }
  }

  lemma StoredChars(s: State, i: nat)
    requires Queue(s) && ProducerOk(s) && s.producer.PStore? && |s.removed| <= i <= |s.accepted|
    ensures var t := ProducerNext(s);
            i < |t.accepted| && Mask(i) < |t.buffer| && t.buffer[Mask(i)] == t.accepted[i]
  {
    if i < |s.accepted| {
      assert ProducerNext(s).accepted[i] == s.accepted[i];
    }
  }

  lemma StoreHeadQueue(s: State)
    requires Queue(s) && ProducerOk(s) && s.producer.PStore?
    ensures Queue(ProducerNext(s))
  {
    var t, n := ProducerNext(s), |s.accepted|;
    MaskNext(n);
    assert t.accepted[..|t.removed|] == s.accepted[..|s.removed|];
    forall i | |t.removed| <= i < |t.accepted|
      ensures t.buffer[Mask(i)] == t.accepted[i]
    {
      StoredChars(s, i);
    }
  }

  /** The consumer's step is unaffected. */
  lemma StoreHeadConsumer(s: State)
    requires Inv(s) && s.producer.PStore?
    ensures ConsumerOk(ProducerNext(s))
  {
    MaskNext(|s.accepted|);
  }

  lemma StoreHeadKeeps(s: State)
    requires Inv(s) && s.producer.PStore?
    ensures Inv(ProducerNext(s))
  {
    StoreHeadQueue(s);
    StoreHeadConsumer(s);
  }

  lemma LoadHeadKeeps(s: State)
    requires Inv(s) && s.consumer.CLoadHead?
    ensures Inv(ConsumerNext(s))
  {
    MaskDiffers(|s.removed|, |s.accepted|);
  }

  lemma StoreTailKeeps(s: State)
    requires Inv(s) && s.consumer.CStore?
    ensures Inv(ConsumerNext(s))
  {
    var t, m := ConsumerNext(s), |s.removed|;
    MaskNext(m);
    assert t.removed == s.accepted[..m + 1] && t.tail == Mask(m + 1);
  }

  lemma EmptyLoadKeeps(s: State)
    requires Inv(s) && s.consumer.ELoadHead?
    ensures Inv(ConsumerNext(s))
  {
    MaskDiffers(|s.removed|, |s.accepted|);
  }

  lemma NextKeeps(s: State, a: Action)
    requires Inv(s)
    ensures Inv(Next(s, a))
  {
    match a {
      case ProducerStep =>
        match s.producer {
          case PLoadTail(_, _) => LoadTailKeeps(s);
          case PWrite(_, _) => WriteKeeps(s);
          case PStore(_, _) => StoreHeadKeeps(s);
          case _ =>
        }
      case ConsumerStep =>
        match s.consumer {
          case CLoadHead(_) => LoadHeadKeeps(s);
          case CStore(_, _) => StoreTailKeeps(s);
          case ELoadHead => EmptyLoadKeeps(s);
          case _ =>
        }
      case _ =>
    }
  }

  // ---- Runs ----

  /** The state after a schedule of calls and single steps of either thread. */
  ghost function Run(s: State, acts: seq<Action>): State {
    if acts == [] then s
    else Next(Run(s, acts[..|acts| - 1]), acts[|acts| - 1])
  }

  lemma {:induction false} RunKeeps(s: State, acts: seq<Action>)
    requires Inv(s)
    ensures Inv(Run(s, acts))
  {
    if acts != [] {
      RunKeeps(s, acts[..|acts| - 1]);
      NextKeeps(Run(s, acts[..|acts| - 1]), acts[|acts| - 1]);
    }
  }

  /** Over every interleaving: the characters removed are a prefix of those accepted, at most 255 are held,
      a push is dropped only when it found 255, and a pop finds nothing only when none was held. */
  lemma EveryRun(acts: seq<Action>)
    ensures var s := Run(Init(), acts);
            && s.removed <= s.accepted && |s.accepted| - |s.removed| <= 255
            && (forall i :: 0 <= i < |s.events| && s.events[i].Dropped? ==> s.events[i].held == 255)
            && (forall i :: 0 <= i < |s.events| && s.events[i].NothingToPop? ==> s.events[i].held == 0)
            && (forall i :: 0 <= i < |s.events| && s.events[i].SaidEmpty? ==>
                   s.events[i].answer == s.events[i].wasEmpty)
  {
    assert Inv(Init());
    RunKeeps(Init(), acts);
    var s := Run(Init(), acts);
    forall i | 0 <= i < |s.events|
      ensures EventOk(s.events[i])
    {
    }
  }

  /** The converse at the step that decides: a push that finds fewer than 255 characters goes on to store
      its own, and a pop that finds some goes on to return the oldest. */
  lemma DecidingStep(s: State)
    requires Inv(s)
    ensures s.producer.PLoadTail? ==> (ProducerNext(s).producer.PWrite? <==> Held(s) < 255)
    ensures s.consumer.CLoadHead? ==> (ConsumerNext(s).consumer.CRead? <==> Held(s) > 0)
    ensures s.consumer.CRead? ==> ConsumerNext(s).consumer.c == s.accepted[|s.removed|]
  {
    FullWhen(s);
  }

  lemma RunOne(s: State, acts: seq<Action>, a: Action)
    ensures Run(s, acts + [a]) == Next(Run(s, acts), a)
  {
    assert (acts + [a])[..|acts|] == acts;
  }

  // ---- Calls that run without interruption ----

  /** The steps of one call: the call itself, then `step` four times. */
  function Call(call: Action, step: Action): seq<Action> {
    [] + [call] + [step] + [step] + [step] + [step]
  }

  lemma CallRun(s: State, call: Action, step: Action)
    ensures Run(s, Call(call, step)) == Next(Next(Next(Next(Next(s, call), step), step), step), step)
  {
    RunOne(s, [], call);
    RunOne(s, [] + [call], step);
    RunOne(s, [] + [call] + [step], step);
    RunOne(s, [] + [call] + [step] + [step], step);
    RunOne(s, [] + [call] + [step] + [step] + [step], step);
  }

  /** The state after an uninterrupted push, and after an uninterrupted pop. */
  ghost function Pushed(s: State, c: Byte): State {
    if Held(s) < 255 then
      s.(buffer := Set(s.buffer, s.head, c), head := Mask(s.head + 1),
         accepted := s.accepted + [c], events := s.events + [Accepted(c)])
    else s.(events := s.events + [Dropped(c, Held(s))])
  }

  ghost function PoppedOne(s: State): State {
    if Held(s) > 0 then
      var c := Get(s.buffer, s.tail);
      s.(tail := Mask(s.tail + 1), removed := s.removed + [c], events := s.events + [Popped(c)])
    else s.(events := s.events + [NothingToPop(Held(s))])
  }

  lemma PushSteps(s: State, c: Byte)
    requires s.producer == PIdle && (Mask(s.head + 1) != s.tail <==> Held(s) < 255)
    ensures var p := ProducerStep;
            Next(Next(Next(Next(Next(s, Push(c)), p), p), p), p) == Pushed(s, c)
  {
    var u := s.(producer := PLoadTail(c, s.head));
    assert Next(Next(s, Push(c)), ProducerStep) == u;
  }

  lemma PopSteps(s: State)
    requires s.consumer == CIdle && (s.tail != s.head <==> Held(s) > 0)
    ensures var p := ConsumerStep;
            Next(Next(Next(Next(Next(s, Pop), p), p), p), p) == PoppedOne(s)
  {
    var u := s.(consumer := CLoadHead(s.tail));
    assert Next(Next(s, Pop), ConsumerStep) == u;
  }

  /** A push with no step of the consumer in between is the state change that FifoPush makes. */
  lemma PushIsRun(s: State, c: Byte)
    requires Inv(s) && s.producer == PIdle
    ensures Run(s, Call(Push(c), ProducerStep)) == Pushed(s, c)
  {
    CallRun(s, Push(c), ProducerStep);
    FullWhen(s);
    PushSteps(s, c);
  }

  lemma PopIsRun(s: State)
    requires Inv(s) && s.consumer == CIdle
    ensures Run(s, Call(Pop, ConsumerStep)) == PoppedOne(s)
  {
    CallRun(s, Pop, ConsumerStep);
    FullWhen(s);
    PopSteps(s);
  }

  /** A question with no step of the producer in between is answered by whether any character is held, and changes
      nothing else. */
  lemma AskIsRun(s: State)
    requires Inv(s) && s.consumer == CIdle
    ensures Run(s, [] + [AskEmpty] + [ConsumerStep] + [ConsumerStep])
            == s.(events := s.events + [SaidEmpty(Held(s) == 0, Held(s) == 0)])
  {
    RunOne(s, [], AskEmpty);
    RunOne(s, [] + [AskEmpty], ConsumerStep);
    RunOne(s, [] + [AskEmpty] + [ConsumerStep], ConsumerStep);
    FullWhen(s);
    var u := s.(consumer := ELoadTail(s.head, Held(s) == 0));
    assert Next(Next(s, AskEmpty), ConsumerStep) == u;
  }

  /** The indices say whether the queue is full and whether it is empty. */
  lemma FullWhen(s: State)
    requires Inv(s)
    ensures Mask(s.head + 1) != s.tail <==> Held(s) < 255
    ensures s.tail != s.head <==> Held(s) > 0
    ensures Held(s) > 0 ==> Get(s.buffer, s.tail) == s.accepted[|s.removed|]
  {
    MaskNext(|s.accepted|);
    MaskDiffers(|s.removed|, |s.accepted| + 1);
    MaskDiffers(|s.removed|, |s.accepted|);
  }

  lemma PushedOk(s: State, c: Byte)
    requires Inv(s) && s.producer == PIdle
    ensures Inv(Pushed(s, c))
    ensures Pushed(s, c).accepted[|s.removed|..]
            == if Held(s) < 255 then s.accepted[|s.removed|..] + [c] else s.accepted[|s.removed|..]
  {
    PushIsRun(s, c);
    RunKeeps(s, Call(Push(c), ProducerStep));
  }

  /** What a push changes, and what it keeps. */
  lemma PushedIs(s: State, c: Byte) returns (t: State)
    requires Inv(s) && s.producer == PIdle && s.consumer == CIdle
    ensures t == Pushed(s, c) && Inv(t) && t.producer == PIdle && t.consumer == CIdle
    ensures s.head < |s.buffer| && t.tail == s.tail && t.removed == s.removed && |s.removed| <= |s.accepted|
    ensures t.buffer == (if Mask(s.head + 1) == s.tail then s.buffer else s.buffer[s.head := c])
    ensures t.head == (if Mask(s.head + 1) == s.tail then s.head else Mask(s.head + 1))
    ensures |t.removed| <= |t.accepted|
    ensures t.accepted[|t.removed|..]
            == if |s.accepted[|s.removed|..]| < 255 then s.accepted[|s.removed|..] + [c] else s.accepted[|s.removed|..]
  {
    t := Pushed(s, c);
    FullWhen(s);
    PushedOk(s, c);
  }

  lemma PoppedOk(s: State)
    requires Inv(s) && s.consumer == CIdle
    ensures Inv(PoppedOne(s))
  {
    PopIsRun(s);
    RunKeeps(s, Call(Pop, ConsumerStep));
  }

  // ---- The calls as code ----

  class Fifo {
    const buffer: array<Byte>
    var head: nat
    var tail: nat
    ghost var state: State

    ghost predicate Valid()
      reads this, buffer
    {
      && Inv(state) && state.producer == PIdle && state.consumer == CIdle
      && buffer[..] == state.buffer && head == state.head && tail == state.tail
    }

    /** The characters held, oldest first. */
    ghost function Contents(): seq<Byte>
      requires Inv(state)
      reads this
    {
      state.accepted[|state.removed|..]
    }

    constructor ()
      ensures Valid() && fresh(buffer) && Contents() == []
    {
      buffer := new Byte[FIFO_SIZE](_ => 0);
      head, tail, state := 0, 0, Init();
    }

    // The character, then the new head.
    method Store(c: Byte, next: nat)
      requires head < buffer.Length
      modifies `head, buffer
      ensures buffer[..] == old(buffer[..])[old(head) := c] && head == next
    {
      buffer[head] := c;
      head := next;
    }

    method FifoPush(c: Byte)
      requires Valid()
      modifies this, buffer
      ensures Valid() && state == Pushed(old(state), c)
      ensures Contents() == if |old(Contents())| < 255 then old(Contents()) + [c] else old(Contents())
    {
      ghost var t := PushedIs(state, c);
      var next := Mask(head + 1);
      if next != tail {
        Store(c, next);
      }
      state := t;
    }

    method FifoPop() returns (r: int)
      requires Valid()
      modifies this
      ensures Valid() && state == PoppedOne(old(state))
      ensures if old(Contents()) == [] then r == -1 && Contents() == []
              else r == old(Contents())[0] && Contents() == old(Contents())[1..]
    {
      FullWhen(state);
      PoppedOk(state);
      if tail == head {
        r := -1;
      } else {
        var c := buffer[tail];
        tail := Mask(tail + 1);
        r := c;
      }
      state := PoppedOne(state);
    }

    method FifoIsEmpty() returns (r: bool)
      requires Valid()
      ensures r <==> Contents() == []
    {
      MaskDiffers(|state.removed|, |state.accepted|);
      r := head == tail;
    }
  }
}
