/**
 * Hooks that build one linked list per function in a common pool, interleaved at every atomic
 * operation. Models __cyg_profile_func_enter, __cyg_profile_func_exit, prof_stop, prof_start and the walk
 * of prof_get_stats in common/src/diagnostic/profiler/profiler.c.
 */
module ProfilerLists {
  import opened Arith

  const MAX_SAMPLES := 1024
  const NULL_INDEX := 0xFFFF_FFFF
  const STOP := 0xFFFF_FFFF   // the value of next_sample while profiling is off

  /** Where a hook stands: `f` is the function's index, `p` the sample it took, `t` the tail it read.
      `k` is the sample's place in its list. The last two are exit hooks. */
  datatype Hook =
    | Idle
    | Probed(f: nat)
    | Claimed(f: nat, p: nat)
    | Cleared(f: nat, p: nat)
    | Stamped(f: nat, p: nat)
    | Loaded(f: nat, p: nat, t: nat)
    | Linking(f: nat, p: nat, t: nat, k: nat)
    | Stopping
    | Leaving(f: nat)
    | Left(p: nat)

  /** History: whether a sample is free, held by a hook that has not yet put it in a list, or in a list. */
  datatype Place = Free | Held(hook: nat) | In(f: nat, k: nat)

  datatype State = State(
    next: nat,                // next_sample
    ll: seq<nat>,             // the pool's links
    ts: seq<nat>,             // the pool's entry timestamps
    exit: seq<nat>,           // the pool's exit timestamps
    head: seq<nat>, tail: seq<nat>,
    hooks: seq<Hook>,
    order: seq<seq<nat>>,     // history: each function's samples in the order their hooks took over its tail
    place: seq<Place>)        // history

  datatype Action =
    | Enter(i: nat, f: nat)                        // an enter hook is called; its first step reads next_sample
    | Leave(i: nat, f: nat)                        // an exit hook is called, likewise
    | Step(i: nat, now: nat, spurious: bool)       // its next atomic step; a weak exchange may fail for no reason
    | Stop                                         // prof_stop

  predicate Typed(s: State) {
    && |s.ll| == |s.ts| == |s.exit| == |s.place| == MAX_SAMPLES
    && |s.head| == |s.tail| == |s.order|
    && s.next <= STOP
  }

  // ---- The steps ----

  function SetHook(s: State, i: nat, h: Hook): State {
    if i < |s.hooks| then s.(hooks := s.hooks[i := h]) else s
  }

  function Probe(s: State, i: nat, f: nat, h: Hook): State {
    if s.next == STOP || f >= |s.order| then s else SetHook(s, i, h)
  }

  /** An exit hook reads the tail: the newest sample of its function, if there is one. */
  function LoadLast(s: State, i: nat, f: nat): State {
    if f < |s.tail| then SetHook(s, i, if s.tail[f] == NULL_INDEX then Idle else Left(s.tail[f])) else s
  }

  function StampExit(s: State, i: nat, p: nat, now: nat): State {
    if p < |s.exit| then SetHook(s.(exit := s.exit[p := now]), i, Idle) else s
  }

  /** The fetch-and-add, in 32 bits. */
  function Claim(s: State, i: nat, f: nat): State {
    var s' := s.(next := if s.next == STOP then 0 else s.next + 1);
    if s.next < MAX_SAMPLES && s.next < |s.place| then
      SetHook(s'.(place := s.place[s.next := Held(i)]), i, Claimed(f, s.next))
    else SetHook(s', i, if s.next == MAX_SAMPLES then Stopping else Idle)
  }

  function Clear(s: State, i: nat, f: nat, p: nat): State {
    if p < |s.ll| then SetHook(s.(ll := s.ll[p := NULL_INDEX]), i, Cleared(f, p)) else s
  }

  function Stamp(s: State, i: nat, f: nat, p: nat, now: nat): State {
    if p < |s.ts| then SetHook(s.(ts := s.ts[p := now]), i, Stamped(f, p)) else s
  }

  function Load(s: State, i: nat, f: nat, p: nat): State {
    if f < |s.tail| then SetHook(s, i, Loaded(f, p, s.tail[f])) else s
  }

  /** The exchange of the tail; a failed one leaves the tail just read in `t`. */
  function Exchange(s: State, i: nat, f: nat, p: nat, t: nat, spurious: bool): State {
    if f >= |s.tail| || f >= |s.order| || p >= |s.place| then s
    else if s.tail[f] != t || spurious then SetHook(s, i, Loaded(f, p, s.tail[f]))
    else
      var k := |s.order[f]|;
      SetHook(s.(tail := s.tail[f := p], order := s.order[f := s.order[f] + [p]], place := s.place[p := In(f, k)]),
              i, Linking(f, p, t, k))
  }

  function Link(s: State, i: nat, f: nat, p: nat, t: nat): State {
    if t != NULL_INDEX then
      if t < |s.ll| then SetHook(s.(ll := s.ll[t := p]), i, Idle) else s
    else if f < |s.head| then SetHook(s.(head := s.head[f := p]), i, Idle)
    else s
  }

  function Next(s: State, a: Action): State {
    match a
    case Stop => s.(next := STOP)
    case Enter(i, f) => if i < |s.hooks| && s.hooks[i] == Idle then Probe(s, i, f, Probed(f)) else s
    case Leave(i, f) => if i < |s.hooks| && s.hooks[i] == Idle then Probe(s, i, f, Leaving(f)) else s
    case Step(i, now, spurious) =>
      if i >= |s.hooks| then s
      else
        match s.hooks[i]
        case Idle => s
        case Probed(f) => Claim(s, i, f)
        case Claimed(f, p) => Clear(s, i, f, p)
        case Cleared(f, p) => Stamp(s, i, f, p, now)
        case Stamped(f, p) => Load(s, i, f, p)
        case Loaded(f, p, t) => Exchange(s, i, f, p, t, spurious)
        case Linking(f, p, t, k) => Link(s, i, f, p, t)
        case Stopping => SetHook(s.(next := STOP), i, Idle)
        case Leaving(f) => LoadLast(s, i, f)
        case Left(p) => StampExit(s, i, p, now)
  }

  /** The one step that breaks the lists: a hook that looked before profiling was switched off adds one
      to the stop value and so starts the pool over. */
  predicate Wraps(s: State, a: Action) {
    a.Step? && a.i < |s.hooks| && s.hooks[a.i].Probed? && s.next == STOP
  }

  function Start(functions: nat, hooks: nat): State {
    State(0, seq(MAX_SAMPLES, _ => 0), seq(MAX_SAMPLES, _ => 0), seq(MAX_SAMPLES, _ => 0),
          seq(functions, _ => NULL_INDEX), seq(functions, _ => NULL_INDEX),
          seq(hooks, _ => Idle), seq(functions, _ => []), seq(MAX_SAMPLES, _ => Free))
  }

  // ---- The invariant ----

  function Prev(list: seq<nat>, k: nat): nat
    requires k <= |list|
  {
    if k == 0 then NULL_INDEX else list[k - 1]
  }

  /** Where the walk stands before the `k`-th sample of a list. */
  function Pointer(s: State, f: nat, k: nat): nat
    requires Typed(s) && f < |s.order| && k <= |s.order[f]|
  {
    if k == 0 then s.head[f]
    else if s.order[f][k - 1] < MAX_SAMPLES then s.ll[s.order[f][k - 1]]
    else NULL_INDEX
  }

  ghost predicate Pending(s: State, f: nat, k: nat)
    requires f < |s.order| && k < |s.order[f]|
  {
    exists i :: 0 <= i < |s.hooks| && s.hooks[i] == Linking(f, s.order[f][k], Prev(s.order[f], k), k)
  }

  /** The link to the `k`-th sample is in place, or its hook is about to put it there. */
  ghost predicate LinkOk(s: State, f: nat, k: nat)
    requires Typed(s) && f < |s.order| && k < |s.order[f]|
  {
    Pointer(s, f, k) == s.order[f][k] || (Pointer(s, f, k) == NULL_INDEX && Pending(s, f, k))
  }

  ghost predicate ListOk(s: State, f: nat)
    requires Typed(s) && f < |s.order|
  {
    && s.tail[f] == Prev(s.order[f], |s.order[f]|)
    && Pointer(s, f, |s.order[f]|) == NULL_INDEX
    && (forall k :: 0 <= k < |s.order[f]| ==>
          s.order[f][k] < MAX_SAMPLES && s.place[s.order[f][k]] == In(f, k) && LinkOk(s, f, k))
  }

  predicate Holds(s: State, i: nat, f: nat, p: nat) {
    f < |s.order| && p < |s.place| && s.place[p] == Held(i)
  }

  predicate HookOk(s: State, i: nat)
    requires Typed(s) && i < |s.hooks|
  {
    match s.hooks[i]
    case Idle => true
    case Stopping => true
    case Probed(f) => f < |s.order|
    case Claimed(f, p) => Holds(s, i, f, p)
    case Cleared(f, p) => Holds(s, i, f, p) && s.ll[p] == NULL_INDEX
    case Stamped(f, p) => Holds(s, i, f, p) && s.ll[p] == NULL_INDEX
    case Loaded(f, p, t) => Holds(s, i, f, p) && s.ll[p] == NULL_INDEX
    case Leaving(f) => f < |s.order|
    case Left(p) => p < MAX_SAMPLES
    case Linking(f, p, t, k) =>
      f < |s.order| && k < |s.order[f]| && s.order[f][k] == p && t == Prev(s.order[f], k)
  }

  ghost predicate Inv(s: State) {
    && Typed(s)
    && (forall f :: 0 <= f < |s.order| ==> ListOk(s, f))
    && (forall i :: 0 <= i < |s.hooks| ==> HookOk(s, i))
    && (forall p :: s.next <= p < MAX_SAMPLES ==> s.place[p] == Free)
  }

  // ---- Each step keeps it ----

  /** A step that changes one hook, neither to nor from linking, and no list. */
  lemma HookMoves(s: State, i: nat, h: Hook)
    requires Inv(s) && i < |s.hooks| && !s.hooks[i].Linking? && !h.Linking?
    requires HookOk(SetHook(s, i, h), i)
    ensures Inv(SetHook(s, i, h))
  {
    var s' := SetHook(s, i, h);
    forall f | 0 <= f < |s'.order|
      ensures ListOk(s', f)
    {
      assert ListOk(s, f);
      forall k | 0 <= k < |s.order[f]|
        ensures LinkOk(s', f, k)
      {
        PendingStays(s, i, h, f, k);
      }
    }
    forall j | 0 <= j < |s'.hooks|
      ensures HookOk(s', j)
    {
      assert HookOk(s, j);
    }
  }

  lemma PendingStays(s: State, i: nat, h: Hook, f: nat, k: nat)
    requires Inv(s) && i < |s.hooks| && !s.hooks[i].Linking? && f < |s.order| && k < |s.order[f]|
    ensures LinkOk(SetHook(s, i, h), f, k)
  {
    assert ListOk(s, f);
    if Pending(s, f, k) {
      var j :| 0 <= j < |s.hooks| && s.hooks[j] == Linking(f, s.order[f][k], Prev(s.order[f], k), k);
      assert SetHook(s, i, h).hooks[j] == s.hooks[j];
    }
  }

  lemma ClaimKeeps(s: State, i: nat, f: nat)
    requires Inv(s) && i < |s.hooks| && s.hooks[i] == Probed(f) && s.next != STOP
    ensures Inv(Claim(s, i, f))
  {
    assert HookOk(s, i);
    if s.next < MAX_SAMPLES {
      var s' := s.(next := s.next + 1, place := s.place[s.next := Held(i)]);
      forall g | 0 <= g < |s.order|
        ensures ListOk(s', g)
      {
        assert ListOk(s, g);
        forall k | 0 <= k < |s.order[g]|
          ensures s'.place[s.order[g][k]] == In(g, k) && LinkOk(s', g, k)
        {
          assert LinkOk(s, g, k);
          assert Pending(s, g, k) ==> Pending(s', g, k);
        }
      }
      forall j | 0 <= j < |s.hooks|
        ensures HookOk(s', j)
      {
        assert HookOk(s, j);
      }
      HookMoves(s', i, Claimed(f, s.next));
    } else {
      var s' := s.(next := s.next + 1);
      NextMoves(s, s.next + 1);
      HookMoves(s', i, if s.next == MAX_SAMPLES then Stopping else Idle);
    }
  }

  /** `next_sample` may move up. */
  lemma NextMoves(s: State, next: nat)
    requires Inv(s) && s.next <= next <= STOP
    ensures Inv(s.(next := next))
  {
    var s' := s.(next := next);
    forall f | 0 <= f < |s.order|
      ensures ListOk(s', f)
    {
      assert ListOk(s, f);
      forall k | 0 <= k < |s.order[f]|
        ensures LinkOk(s', f, k)
      {
        assert LinkOk(s, f, k);
        assert Pending(s, f, k) ==> Pending(s', f, k);
      }
    }
    forall j | 0 <= j < |s.hooks|
      ensures HookOk(s', j)
    {
      assert HookOk(s, j);
    }
  }

  lemma ClearKeeps(s: State, i: nat, f: nat, p: nat)
    requires Inv(s) && i < |s.hooks| && s.hooks[i] == Claimed(f, p)
    ensures Inv(Clear(s, i, f, p))
  {
    assert HookOk(s, i);
    var s' := s.(ll := s.ll[p := NULL_INDEX]);
    forall g | 0 <= g < |s.order|
      ensures ListOk(s', g)
    {
      assert ListOk(s, g);
      forall k | 0 <= k <= |s.order[g]|
        ensures Pointer(s', g, k) == Pointer(s, g, k)
      {
        if k > 0 {
          assert s.place[s.order[g][k - 1]] == In(g, k - 1);
        }
      }
      forall k | 0 <= k < |s.order[g]|
        ensures LinkOk(s', g, k)
      {
        assert LinkOk(s, g, k);
        assert Pending(s, g, k) ==> Pending(s', g, k);
      }
    }
    forall j | 0 <= j < |s.hooks|
      ensures HookOk(s', j)
    {
      assert HookOk(s, j);
    }
    HookMoves(s', i, Cleared(f, p));
  }

  /** Timestamps matter to no list. */
  lemma TimesMove(s: State, ts: seq<nat>, exit: seq<nat>)
    requires Inv(s) && |ts| == |exit| == MAX_SAMPLES
    ensures Inv(s.(ts := ts, exit := exit))
  {
    var s' := s.(ts := ts, exit := exit);
    forall g | 0 <= g < |s.order|
      ensures ListOk(s', g)
    {
      assert ListOk(s, g);
      forall k | 0 <= k < |s.order[g]|
        ensures LinkOk(s', g, k)
      {
        assert LinkOk(s, g, k);
        assert Pending(s, g, k) ==> Pending(s', g, k);
      }
    }
    forall j | 0 <= j < |s.hooks|
      ensures HookOk(s', j)
    {
      assert HookOk(s, j);
    }
  }

  lemma StampKeeps(s: State, i: nat, f: nat, p: nat, now: nat)
    requires Inv(s) && i < |s.hooks| && s.hooks[i] == Cleared(f, p)
    ensures Inv(Stamp(s, i, f, p, now))
  {
    assert HookOk(s, i);
    TimesMove(s, s.ts[p := now], s.exit);
    HookMoves(s.(ts := s.ts[p := now]), i, Stamped(f, p));
  }

  lemma StampExitKeeps(s: State, i: nat, p: nat, now: nat)
    requires Inv(s) && i < |s.hooks| && s.hooks[i] == Left(p)
    ensures Inv(StampExit(s, i, p, now))
  {
    assert HookOk(s, i);
    TimesMove(s, s.ts, s.exit[p := now]);
    HookMoves(s.(exit := s.exit[p := now]), i, Idle);
  }

  /** An exit hook will stamp the newest sample of its function. */
  lemma LoadLastKeeps(s: State, i: nat, f: nat)
    requires Inv(s) && i < |s.hooks| && s.hooks[i] == Leaving(f)
    ensures Inv(LoadLast(s, i, f)) && f < |s.order|
    ensures LoadLast(s, i, f).hooks[i]
            == if s.order[f] == [] then Idle else Left(s.order[f][|s.order[f]| - 1])
  {
    assert HookOk(s, i);
    assert ListOk(s, f);
    HookMoves(s, i, if s.tail[f] == NULL_INDEX then Idle else Left(s.tail[f]));
  }

  /** Taking over the tail puts the sample at the end of the list. */
  lemma ExchangeKeeps(s: State, i: nat, f: nat, p: nat, t: nat)
    requires Inv(s) && i < |s.hooks| && s.hooks[i] == Loaded(f, p, t) && HookOk(s, i) && s.tail[f] == t
    ensures Inv(Exchange(s, i, f, p, t, false))
  {
    assert ListOk(s, f);
    var s' := Exchange(s, i, f, p, t, false);
    forall g | 0 <= g < |s.order|
      ensures ListOk(s', g)
    {
      ExchangedList(s, i, f, p, t, g);
    }
    forall j | 0 <= j < |s.hooks|
      ensures HookOk(s', j)
    {
      assert HookOk(s, j);
    }
  }

  /** The links that were there before are as they were. */
  lemma ExchangedLink(s: State, i: nat, f: nat, p: nat, t: nat, g: nat, k: nat)
    requires Inv(s) && i < |s.hooks| && s.hooks[i] == Loaded(f, p, t) && HookOk(s, i) && s.tail[f] == t
    requires g < |s.order| && k < |s.order[g]|
    ensures var s' := Exchange(s, i, f, p, t, false);
            Typed(s') && s'.order[g][k] == s.order[g][k] < MAX_SAMPLES && LinkOk(s', g, k)
            && s'.place[s.order[g][k]] == In(g, k)
  {
    var s' := Exchange(s, i, f, p, t, false);
    assert ListOk(s, g);
    assert s.place[s.order[g][k]] == In(g, k);
    assert LinkOk(s, g, k);
    if Pending(s, g, k) {
      var j :| 0 <= j < |s.hooks| && s.hooks[j] == Linking(g, s.order[g][k], Prev(s.order[g], k), k);
      assert s'.hooks[j] == s.hooks[j];
    }
  }

  lemma ExchangedList(s: State, i: nat, f: nat, p: nat, t: nat, g: nat)
    requires Inv(s) && i < |s.hooks| && s.hooks[i] == Loaded(f, p, t) && HookOk(s, i) && s.tail[f] == t
    requires g < |s.order|
    ensures ListOk(Exchange(s, i, f, p, t, false), g)
  {
    var s' := Exchange(s, i, f, p, t, false);
    assert ListOk(s, g);
    forall k | 0 <= k < |s.order[g]|
      ensures s'.order[g][k] < MAX_SAMPLES && LinkOk(s', g, k) && s'.place[s'.order[g][k]] == In(g, k)
    {
      ExchangedLink(s, i, f, p, t, g, k);
    }
    if g == f {
      NewLink(s, i, f, p, t);
    }
  }

  /** The new sample's link is the one its hook is about to set. */
  lemma NewLink(s: State, i: nat, f: nat, p: nat, t: nat)
    requires Inv(s) && i < |s.hooks| && s.hooks[i] == Loaded(f, p, t) && HookOk(s, i) && s.tail[f] == t
    ensures var s' := Exchange(s, i, f, p, t, false);
            var k := |s.order[f]|;
            && Typed(s') && |s'.order[f]| == k + 1 && s'.order[f][k] == p && s'.place[p] == In(f, k)
            && LinkOk(s', f, k) && Pointer(s', f, k + 1) == NULL_INDEX && s'.tail[f] == p
  {
    var s' := Exchange(s, i, f, p, t, false);
    var k := |s.order[f]|;
    assert ListOk(s, f);
    assert s'.hooks[i] == Linking(f, p, Prev(s'.order[f], k), k);
    assert Pending(s', f, k);
  }

  /** The last step links the sample where its hook found the list's end. */
  lemma LinkKeeps(s: State, i: nat, f: nat, p: nat, t: nat, k: nat)
    requires Inv(s) && i < |s.hooks| && s.hooks[i] == Linking(f, p, t, k)
    ensures Inv(Link(s, i, f, p, t))
  {
    assert HookOk(s, i);
    assert ListOk(s, f);
    var s' := Link(s, i, f, p, t);
    forall g | 0 <= g < |s.order|
      ensures ListOk(s', g)
    {
      LinkedList(s, i, f, p, t, k, g);
    }
    forall j | 0 <= j < |s.hooks|
      ensures HookOk(s', j)
    {
      assert HookOk(s, j);
      if k > 0 {
        assert s.place[s.order[f][k - 1]] == In(f, k - 1);
      }
    }
  }

  /** Where the link goes: to the list's head, or behind the sample before. */
  lemma LinkIs(s: State, i: nat, f: nat, p: nat, t: nat, k: nat)
    requires Inv(s) && i < |s.hooks| && s.hooks[i] == Linking(f, p, t, k)
    ensures f < |s.order| && k < |s.order[f]| && s.order[f][k] == p
    ensures k == 0 ==> Link(s, i, f, p, t) == SetHook(s.(head := s.head[f := p]), i, Idle)
    ensures k > 0 ==> t == s.order[f][k - 1] && t < MAX_SAMPLES && s.place[t] == In(f, k - 1)
                      && Link(s, i, f, p, t) == SetHook(s.(ll := s.ll[t := p]), i, Idle)
  {
    assert HookOk(s, i);
    if k > 0 {
      SamePlace(s, f, k - 1);
    }
  }

  /** Only the pointer to the sample linked has changed. */
  lemma LinkedPointer(s: State, i: nat, f: nat, p: nat, t: nat, k: nat, g: nat, m: nat)
    requires Inv(s) && i < |s.hooks| && s.hooks[i] == Linking(f, p, t, k)
    requires g < |s.order| && m <= |s.order[g]|
    ensures Typed(Link(s, i, f, p, t)) && Link(s, i, f, p, t).order == s.order
    ensures Pointer(Link(s, i, f, p, t), g, m) == if g == f && m == k then p else Pointer(s, g, m)
  {
    LinkIs(s, i, f, p, t, k);
    if m > 0 {
      SamePlace(s, g, m - 1);
    }
  }

  lemma SamePlace(s: State, g: nat, m: nat)
    requires Inv(s) && g < |s.order| && m < |s.order[g]|
    ensures s.order[g][m] < MAX_SAMPLES && s.place[s.order[g][m]] == In(g, m)
  {
    assert ListOk(s, g);
  }

  lemma LinkedList(s: State, i: nat, f: nat, p: nat, t: nat, k: nat, g: nat)
    requires Inv(s) && i < |s.hooks| && s.hooks[i] == Linking(f, p, t, k) && g < |s.order|
    ensures Typed(Link(s, i, f, p, t)) && Link(s, i, f, p, t).order == s.order && ListOk(Link(s, i, f, p, t), g)
  {
    var s' := Link(s, i, f, p, t);
    assert HookOk(s, i);
    assert ListOk(s, g);
    LinkedPointer(s, i, f, p, t, k, g, |s.order[g]|);
    forall m | 0 <= m < |s.order[g]|
      ensures LinkOk(s', g, m)
    {
      LinkedPointer(s, i, f, p, t, k, g, m);
      assert LinkOk(s, g, m);
      if Pending(s, g, m) && !(g == f && m == k) {
        var j :| 0 <= j < |s.hooks| && s.hooks[j] == Linking(g, s.order[g][m], Prev(s.order[g], m), m);
        assert s'.hooks[j] == s.hooks[j];
      }
    }
  }

  lemma StepKeeps(s: State, i: nat, now: nat, spurious: bool)
    requires Inv(s) && i < |s.hooks| && !Wraps(s, Step(i, now, spurious))
    ensures Inv(Next(s, Step(i, now, spurious)))
  {
    assert HookOk(s, i);
    match s.hooks[i]
    case Idle =>
    case Probed(f) => ClaimKeeps(s, i, f);
    case Claimed(f, p) => ClearKeeps(s, i, f, p);
    case Cleared(f, p) => StampKeeps(s, i, f, p, now);
    case Stamped(f, p) => HookMoves(s, i, Loaded(f, p, s.tail[f]));
    case Loaded(f, p, t) =>
      if s.tail[f] != t || spurious {
        HookMoves(s, i, Loaded(f, p, s.tail[f]));
      } else {
        ExchangeKeeps(s, i, f, p, t);
      }
    case Linking(f, p, t, k) => LinkKeeps(s, i, f, p, t, k);
    case Stopping =>
      NextMoves(s, STOP);
      HookMoves(s.(next := STOP), i, Idle);
    case Leaving(f) => LoadLastKeeps(s, i, f);
    case Left(p) => StampExitKeeps(s, i, p, now);
  }

  /** Every step keeps the invariant unless it adds one to the stop value. */
  lemma OtherStepKeeps(s: State, a: Action)
    requires Inv(s) && !Wraps(s, a)
    ensures Inv(Next(s, a))
  {
    match a
    case Stop => NextMoves(s, STOP);
    case Enter(i, f) =>
      if i < |s.hooks| && s.hooks[i] == Idle && s.next != STOP && f < |s.order| {
        HookMoves(s, i, Probed(f));
      }
    case Leave(i, f) =>
      if i < |s.hooks| && s.hooks[i] == Idle && s.next != STOP && f < |s.order| {
        HookMoves(s, i, Leaving(f));
      }
    case Step(i, now, spurious) =>
      if i < |s.hooks| {
        StepKeeps(s, i, now, spurious);
      }
  }

  /** No sample has been taken since the pool was last started. */
  ghost predicate Unused(s: State) {
    forall p :: 0 <= p < |s.place| ==> s.place[p] == Free
  }

  lemma WrapKeeps(s: State, a: Action)
    requires Inv(s) && Wraps(s, a) && Unused(s)
    ensures Inv(Next(s, a))
  {
    var s' := s.(next := 0);
    forall f | 0 <= f < |s.order|
      ensures ListOk(s', f) && s.order[f] == []
    {
      assert ListOk(s, f);
    }
    forall j | 0 <= j < |s.hooks|
      ensures HookOk(s', j)
    {
      assert HookOk(s, j);
    }
    HookMoves(s', a.i, Idle);
  }

  /** A step keeps the invariant exactly when it does not add one to the stop value, or the pool is unused.
      What the other steps do to the lists is said at the end. */
  lemma NextKeeps(s: State, a: Action)
    requires Inv(s)
    ensures Inv(Next(s, a)) <==> !Wraps(s, a) || Unused(s)
  {
    if !Wraps(s, a) {
      OtherStepKeeps(s, a);
    } else if Unused(s) {
      WrapKeeps(s, a);
    } else {
      assert Next(s, a).next == 0 && Next(s, a).place == s.place;
    }
  }

  // ---- Runs ----

  function Run(s: State, acts: seq<Action>): State
    decreases |acts|
  {
    if acts == [] then s else Next(Run(s, acts[..|acts| - 1]), acts[|acts| - 1])
  }

  /** Each step of the run that adds one to the stop value finds the pool unused. */
  ghost predicate Harmless(s: State, acts: seq<Action>)
    decreases |acts|
  {
    acts == []
    || var front := Run(s, acts[..|acts| - 1]);
       Harmless(s, acts[..|acts| - 1]) && (!Wraps(front, acts[|acts| - 1]) || Unused(front))
  }

  lemma {:induction false} HarmlessKeeps(s: State, acts: seq<Action>)
    requires Inv(s) && Harmless(s, acts)
    ensures Inv(Run(s, acts))
    decreases |acts|
  {
    if acts != [] {
      HarmlessKeeps(s, acts[..|acts| - 1]);
      NextKeeps(Run(s, acts[..|acts| - 1]), acts[|acts| - 1]);
    }
  }

  /** The invariant holds after every part of the run. */
  ghost predicate InvAlong(s: State, acts: seq<Action>)
    decreases |acts|
  {
    Inv(Run(s, acts)) && (acts == [] || InvAlong(s, acts[..|acts| - 1]))
  }

  /** The invariant holds all along a run exactly when each step that adds one to the stop value finds the
      pool unused. */
  lemma {:induction false} RunKeeps(s: State, acts: seq<Action>)
    requires Inv(s)
    ensures InvAlong(s, acts) <==> Harmless(s, acts)
    decreases |acts|
  {
    if acts != [] {
      var front := acts[..|acts| - 1];
      RunKeeps(s, front);
      if InvAlong(s, front) {
        NextKeeps(Run(s, front), acts[|acts| - 1]);
      }
    }
  }

  lemma StartOk(functions: nat, hooks: nat)
    ensures Inv(Start(functions, hooks))
  {
  }

  /** While fewer samples are taken than the pool holds and nobody stops profiling, no step does harm. */
  lemma {:induction false} FewSamples(s: State, acts: seq<Action>)
    requires forall n :: 0 <= n <= |acts| ==> Run(s, acts[..n]).next < MAX_SAMPLES
    ensures Harmless(s, acts)
    decreases |acts|
  {
    if acts != [] {
      var front := acts[..|acts| - 1];
      forall n | 0 <= n <= |front|
        ensures Run(s, front[..n]).next < MAX_SAMPLES
      {
        assert front[..n] == acts[..n];
      }
      FewSamples(s, front);
      assert Run(s, acts[..|front|]).next < MAX_SAMPLES;
    }
  }

  // ---- Walking a list ----

  /** What prof_stop returns: the number of samples taken. */
  function Taken(s: State): nat {
    if s.next >= MAX_SAMPLES then MAX_SAMPLES else s.next
  }

  /** The samples met from `p` on, in at most `fuel` turns of the loop. */
  function Walk(ll: seq<nat>, p: nat, total: nat, fuel: nat): seq<nat>
    decreases fuel
  {
    if fuel == 0 || p == NULL_INDEX || p >= total || p >= |ll| then []
    else [p] + Walk(ll, ll[p], total, fuel - 1)
  }

  /** All links of the list are in place. */
  ghost predicate Settled(s: State, f: nat) {
    forall i :: 0 <= i < |s.hooks| && s.hooks[i].Linking? ==> s.hooks[i].f != f
  }

  /** A list of samples with the pointers to them in place, but for some that are still missing. */
  ghost predicate Chain(ll: seq<nat>, head: nat, list: seq<nat>, total: nat, whole: bool) {
    && total <= |ll| <= MAX_SAMPLES
    && (forall k :: 0 <= k < |list| ==> list[k] < total)
    && (forall k :: 0 <= k < |list| ==>
          PointerTo(ll, head, list, k) == list[k] || (!whole && PointerTo(ll, head, list, k) == NULL_INDEX))
    && PointerTo(ll, head, list, |list|) == NULL_INDEX
  }

  function PointerTo(ll: seq<nat>, head: nat, list: seq<nat>, k: nat): nat
    requires k <= |list|
  {
    if k == 0 then head else if list[k - 1] < |ll| then ll[list[k - 1]] else NULL_INDEX
  }

  lemma ListIsChain(s: State, f: nat)
    requires Inv(s) && f < |s.order|
    ensures Chain(s.ll, s.head[f], s.order[f], Taken(s), Settled(s, f))
  {
    assert ListOk(s, f);
    forall k | 0 <= k < |s.order[f]|
      ensures s.order[f][k] < Taken(s) && PointerTo(s.ll, s.head[f], s.order[f], k) == Pointer(s, f, k)
      ensures Pointer(s, f, k) == s.order[f][k] || (!Settled(s, f) && Pointer(s, f, k) == NULL_INDEX)
    {
      assert s.place[s.order[f][k]] == In(f, k);
      assert LinkOk(s, f, k);
    }
  }

  lemma WalkOne(ll: seq<nat>, p: nat, total: nat, fuel: nat)
    requires p < total <= |ll| <= MAX_SAMPLES && fuel > 0
    ensures Walk(ll, p, total, fuel) == [p] + Walk(ll, ll[p], total, fuel - 1)
  {
  }

  lemma {:induction false} WalkFrom(ll: seq<nat>, head: nat, list: seq<nat>, total: nat, whole: bool, k: nat, fuel: nat)
    returns (m: nat)
    requires Chain(ll, head, list, total, whole) && k <= |list| && fuel >= |list| - k
    ensures k <= m <= |list| && (whole ==> m == |list|)
    ensures Walk(ll, PointerTo(ll, head, list, k), total, fuel) == list[k..m]
    decreases |list| - k
  {
    if k < |list| && PointerTo(ll, head, list, k) == list[k] {
      m := WalkFrom(ll, head, list, total, whole, k + 1, fuel - 1);
      WalkOne(ll, list[k], total, fuel);
      assert list[k..m] == [list[k]] + list[k + 1..m];
    } else {
      m := k;
    }
  }

  /** A walk from a function's head gives the first of its samples, in the order in which their hooks took
      over the tail, and ends; it gives all of them unless a hook of that function is about to link one. */
  lemma WalkIsPrefix(s: State, f: nat, fuel: nat)
    requires Inv(s) && f < |s.order| && fuel >= |s.order[f]|
    ensures Walk(s.ll, s.head[f], Taken(s), fuel) <= s.order[f]
    ensures Settled(s, f) ==> Walk(s.ll, s.head[f], Taken(s), fuel) == s.order[f]
  {
    ListIsChain(s, f);
    var m := WalkFrom(s.ll, s.head[f], s.order[f], Taken(s), Settled(s, f), 0, fuel);
    assert s.order[f][0..m] == s.order[f][..m];
  }

  /** No sample is in two places: lists do not repeat one and do not share one. */
  lemma SamplesApart(s: State, f: nat, k: nat, g: nat, m: nat)
    requires Inv(s) && f < |s.order| && k < |s.order[f]| && g < |s.order| && m < |s.order[g]|
    requires s.order[f][k] == s.order[g][m]
    ensures f == g && k == m
  {
    assert ListOk(s, f) && ListOk(s, g);
  }

  /** Over every such run, from the start. */
  lemma EveryRun(functions: nat, hooks: nat, acts: seq<Action>, f: nat, fuel: nat)
    requires Harmless(Start(functions, hooks), acts) && f < functions
    ensures var s := Run(Start(functions, hooks), acts);
            && f < |s.order| && f < |s.head|
            && (fuel >= |s.order[f]| ==>
                  && Walk(s.ll, s.head[f], Taken(s), fuel) <= s.order[f]
                  && (Settled(s, f) ==> Walk(s.ll, s.head[f], Taken(s), fuel) == s.order[f]))
  {
    StartOk(functions, hooks);
    HarmlessKeeps(Start(functions, hooks), acts);
    RunSizes(Start(functions, hooks), acts);
    var s := Run(Start(functions, hooks), acts);
    if fuel >= |s.order[f]| {
      WalkIsPrefix(s, f, fuel);
    }
  }

  lemma {:induction false} RunSizes(s: State, acts: seq<Action>)
    ensures |Run(s, acts).order| == |s.order| && |Run(s, acts).head| == |s.head|
    decreases |acts|
  {
    if acts != [] {
      RunSizes(s, acts[..|acts| - 1]);
      StepSizes(Run(s, acts[..|acts| - 1]), acts[|acts| - 1]);
    }
  }

  lemma StepSizes(s: State, a: Action)
    ensures |Next(s, a).order| == |s.order| && |Next(s, a).head| == |s.head|
  {
  }

  // ---- A walk while hooks still run ----

  /** The walk of prof_get_stats over one list: before its first read, and then what it has met and the link
      read last. `total` is what prof_stop returned. */
  datatype Walker = Fresh | Walking(met: seq<nat>, at: nat)

  /** One read of the walk; it ends at a link that is empty or not below `total`. */
  function Look(s: State, f: nat, total: nat, w: Walker): Walker {
    match w
    case Fresh => if f < |s.head| then Walking([], s.head[f]) else w
    case Walking(met, at) =>
      if at == NULL_INDEX || at >= total || at >= |s.ll| then w else Walking(met + [at], s.ll[at])
  }

  /** A hook's step, or the next read of the walk. */
  datatype Event = Hooked(a: Action) | Read

  function RunState(s: State, events: seq<Event>): State
    decreases |events|
  {
    if events == [] then s
    else
      var t, e := RunState(s, events[..|events| - 1]), events[|events| - 1];
      if e.Hooked? then Next(t, e.a) else t
  }

  function RunWalk(s: State, f: nat, total: nat, events: seq<Event>): Walker
    decreases |events|
  {
    if events == [] then Fresh
    else
      var front, e := events[..|events| - 1], events[|events| - 1];
      var w := RunWalk(s, f, total, front);
      if e.Read? then Look(RunState(s, front), f, total, w) else w
  }

  /** No hook's step of the run adds one to the stop value. */
  predicate NoneWraps(s: State, events: seq<Event>)
    decreases |events|
  {
    events == []
    || var front, e := events[..|events| - 1], events[|events| - 1];
       NoneWraps(s, front) && (e.Hooked? ==> !Wraps(RunState(s, front), e.a))
  }

  /** Profiling is off and `total` samples were taken. */
  ghost predicate Stopped(s: State, total: nat) {
    s.next == STOP && total <= MAX_SAMPLES && forall p :: total <= p < |s.place| ==> s.place[p] == Free
  }

  lemma StopsAt(s: State)
    requires Inv(s)
    ensures Stopped(Next(s, Stop), Taken(s))
  {
  }

  lemma StaysStopped(s: State, a: Action, total: nat)
    requires Inv(s) && Stopped(s, total) && !Wraps(s, a)
    ensures Stopped(Next(s, a), total)
  {
    if a.Step? && a.i < |s.hooks| {
      assert HookOk(s, a.i);
    }
  }

  /** A list only grows. */
  lemma OrderGrows(s: State, a: Action, f: nat)
    requires f < |s.order|
    ensures f < |Next(s, a).order| && s.order[f] <= Next(s, a).order[f]
  {
  }

  /** The walk has met the first samples of the list and read the link to the next, if that was there. */
  ghost predicate WalkOk(s: State, f: nat, w: Walker)
    requires f < |s.order|
  {
    w.Walking? ==>
      && w.met <= s.order[f]
      && (w.at == NULL_INDEX || (|w.met| < |s.order[f]| && w.at == s.order[f][|w.met|]))
  }

  lemma PointerIs(s: State, f: nat, k: nat)
    requires Inv(s) && f < |s.order| && k <= |s.order[f]|
    ensures Pointer(s, f, k) == NULL_INDEX || (k < |s.order[f]| && Pointer(s, f, k) == s.order[f][k])
    ensures k < |s.order[f]| ==> s.order[f][k] < MAX_SAMPLES
  {
    assert ListOk(s, f);
    if k < |s.order[f]| {
      assert LinkOk(s, f, k);
    }
  }

  lemma LookOk(s: State, f: nat, total: nat, w: Walker)
    requires Inv(s) && f < |s.order| && WalkOk(s, f, w)
    ensures WalkOk(s, f, Look(s, f, total, w))
  {
    match w
    case Fresh => PointerIs(s, f, 0);
    case Walking(met, at) =>
      if at != NULL_INDEX {
        NextLook(s, f, met, at);
      }
  }

  lemma NextLook(s: State, f: nat, met: seq<nat>, at: nat)
    requires Inv(s) && f < |s.order| && met <= s.order[f] && |met| < |s.order[f]| && at == s.order[f][|met|]
    ensures at < |s.ll| && WalkOk(s, f, Walking(met + [at], s.ll[at]))
  {
    PointerIs(s, f, |met|);
    PointerIs(s, f, |met| + 1);
    assert s.order[f][..|met| + 1] == met + [at];
  }

  /** The links to the first `n` samples of the list are in place. */
  ghost predicate LinkedTo(s: State, f: nat, n: nat)
    requires Typed(s)
  {
    f < |s.order| && n <= |s.order[f]| && forall k :: 0 <= k < n ==> Pointer(s, f, k) == s.order[f][k]
  }

  lemma SettledLinked(s: State, f: nat)
    requires Inv(s) && f < |s.order| && Settled(s, f)
    ensures LinkedTo(s, f, |s.order[f]|)
  {
    assert ListOk(s, f);
    forall k | 0 <= k < |s.order[f]|
      ensures Pointer(s, f, k) == s.order[f][k]
    {
      assert LinkOk(s, f, k);
    }
  }

  /** A link that is in place stays. */
  lemma LinkStays(s: State, a: Action, f: nat, k: nat)
    requires Inv(s) && Inv(Next(s, a)) && f < |s.order| && k < |s.order[f]| && Pointer(s, f, k) == s.order[f][k]
    ensures f < |Next(s, a).order| && k < |Next(s, a).order[f]|
    ensures Pointer(Next(s, a), f, k) == Next(s, a).order[f][k] == s.order[f][k]
  {
    OrderGrows(s, a, f);
    if k > 0 {
      SamePlace(s, f, k - 1);
    }
    if a.Step? && a.i < |s.hooks| {
      assert HookOk(s, a.i);
      match s.hooks[a.i] {
        case Linking(g, p, t, m) =>
          LinkedPointer(s, a.i, g, p, t, m, f, k);
          SamePlace(s, f, k);
        case _ =>
      }
    }
  }

  lemma LinksStay(s: State, a: Action, f: nat, n: nat)
    requires Inv(s) && Inv(Next(s, a)) && LinkedTo(s, f, n)
    ensures LinkedTo(Next(s, a), f, n)
  {
    OrderGrows(s, a, f);
    forall k | 0 <= k < n
      ensures Pointer(Next(s, a), f, k) == Next(s, a).order[f][k]
    {
      LinkStays(s, a, f, k);
    }
  }

  /** The walk has not ended before the `n`-th sample. */
  predicate Reaches(w: Walker, n: nat) {
    w.Walking? && w.at == NULL_INDEX ==> |w.met| >= n
  }

  lemma LookReaches(s: State, f: nat, total: nat, w: Walker, n: nat)
    requires Inv(s) && WalkOkAt(s, f, w) && LinkedTo(s, f, n) && Reaches(w, n)
    ensures Reaches(Look(s, f, total, w), n)
  {
    var k := if w.Fresh? then 0 else |w.met| + 1;
    if k < n {
      assert Pointer(s, f, k) == s.order[f][k];
      PointerIs(s, f, k);
    }
  }

  /** Every sample met is one of the first `total`, and so is the one to come: only an empty link ends the walk. */
  predicate AllTaken(w: Walker, total: nat) {
    w.Walking? ==> (forall k :: 0 <= k < |w.met| ==> w.met[k] < total) && (w.at == NULL_INDEX || w.at < total)
  }

  ghost predicate WalkOkAt(s: State, f: nat, w: Walker) {
    f < |s.order| && WalkOk(s, f, w)
  }

  /** However the reads of a walk and the steps of hooks still running interleave after profiling was switched
      off, the samples met are the first of the function's list, in its order; each is one of the `total`
      taken, and a walk that has come to an end has met all that were linked when it began. */
  lemma {:induction false} WalkWhileRunning(s: State, f: nat, total: nat, n: nat, events: seq<Event>)
    requires Inv(s) && Stopped(s, total) && LinkedTo(s, f, n) && NoneWraps(s, events)
    ensures var t, w := RunState(s, events), RunWalk(s, f, total, events);
            && Inv(t) && Stopped(t, total) && LinkedTo(t, f, n) && WalkOkAt(t, f, w) && Reaches(w, n)
            && (w.Walking? ==> w.met <= t.order[f]) && AllTaken(w, total)
    decreases |events|
  {
    if events != [] {
      var front, e := events[..|events| - 1], events[|events| - 1];
      WalkWhileRunning(s, f, total, n, front);
      WalkOneMore(RunState(s, front), f, total, n, RunWalk(s, f, total, front), e);
    }
  }

  lemma WalkOneMore(t: State, f: nat, total: nat, n: nat, w: Walker, e: Event)
    requires Inv(t) && Stopped(t, total) && LinkedTo(t, f, n) && WalkOkAt(t, f, w) && Reaches(w, n)
    requires e.Hooked? ==> !Wraps(t, e.a)
    ensures var u, v := if e.Hooked? then Next(t, e.a) else t, if e.Read? then Look(t, f, total, w) else w;
            && Inv(u) && Stopped(u, total) && LinkedTo(u, f, n) && WalkOkAt(u, f, v) && Reaches(v, n)
            && AllTaken(v, total)
  {
    if e.Read? {
      LookOk(t, f, total, w);
      LookReaches(t, f, total, w, n);
      MetTaken(t, f, total, Look(t, f, total, w));
    } else {
      NextKeeps(t, e.a);
      StaysStopped(t, e.a, total);
      LinksStay(t, e.a, f, n);
      OrderGrows(t, e.a, f);
      MetTaken(t, f, total, w);
    }
  }

  lemma MetTaken(s: State, f: nat, total: nat, w: Walker)
    requires Inv(s) && Stopped(s, total) && WalkOkAt(s, f, w)
    ensures AllTaken(w, total)
  {
    if w.Walking? {
      forall k | 0 <= k < |w.met|
        ensures w.met[k] < total
      {
        SamePlace(s, f, k);
        assert w.met[k] == s.order[f][k];
      }
      if w.at != NULL_INDEX {
        SamePlace(s, f, |w.met|);
      }
    }
  }

  function Reads(events: seq<Event>): nat
    decreases |events|
  {
    if events == [] then 0 else Reads(events[..|events| - 1]) + (if events[|events| - 1].Read? then 1 else 0)
  }

  /** The hooks' steps of the run. */
  function HooksOf(events: seq<Event>): seq<Action>
    decreases |events|
  {
    if events == [] then []
    else HooksOf(events[..|events| - 1]) + (if events[|events| - 1].Hooked? then [events[|events| - 1].a] else [])
  }

  /** The walk changes nothing: the hooks run as if it were not there. */
  lemma {:induction false} WalkLeavesHooks(s: State, events: seq<Event>)
    ensures RunState(s, events) == Run(s, HooksOf(events))
    decreases |events|
  {
    if events != [] {
      var front, e := events[..|events| - 1], events[|events| - 1];
      WalkLeavesHooks(s, front);
      if e.Hooked? {
        RunOne(s, HooksOf(front), e.a);
      } else {
        assert HooksOf(events) == HooksOf(front);
      }
    }
  }

  /** Each read takes the walk one sample on until it ends, and so it ends: with one read more than the list then has
      samples it has met all that were linked when it began. */
  lemma {:induction false} WalkProgress(s: State, f: nat, total: nat, n: nat, events: seq<Event>)
    requires Inv(s) && Stopped(s, total) && LinkedTo(s, f, n) && NoneWraps(s, events)
    ensures var t, w, r := RunState(s, events), RunWalk(s, f, total, events), Reads(events);
            && (w.Walking? <==> r > 0)
            && (w.Walking? ==> w.at == 0xFFFF_FFFF || |w.met| == r - 1)
            && f < |t.order| && (r > |t.order[f]| ==> w.at == 0xFFFF_FFFF && |w.met| >= n)
    decreases |events|
  {
    WalkWhileRunning(s, f, total, n, events);
    if events != [] {
      var front, e := events[..|events| - 1], events[|events| - 1];
      WalkProgress(s, f, total, n, front);
      WalkWhileRunning(s, f, total, n, front);
    }
  }

  // ---- Statistics ----

  /** A sample counts when both its timestamps are there and in order. */
  predicate Counts(entry: seq<nat>, exit: seq<nat>, p: nat) {
    p < |entry| && p < |exit| && entry[p] != 0 && exit[p] != 0 && exit[p] >= entry[p]
  }

  /** The samples of a list that count, in its order. */
  function Counted(entry: seq<nat>, exit: seq<nat>, list: seq<nat>): seq<nat> {
    if list == [] then []
    else
      var front := Counted(entry, exit, list[..|list| - 1]);
      var p := list[|list| - 1];
      if Counts(entry, exit, p) then front + [p] else front
  }

  function Duration(entry: seq<nat>, exit: seq<nat>, p: nat): nat {
    if Counts(entry, exit, p) then exit[p] - entry[p] else 0
  }

  function Total(entry: seq<nat>, exit: seq<nat>, list: seq<nat>): nat {
    if list == [] then 0
    else Total(entry, exit, list[..|list| - 1]) + Duration(entry, exit, list[|list| - 1])
  }

  /** A sample counts when both its timestamps are set and in order, for the time between them. */
  lemma OneSample(entry: seq<nat>, exit: seq<nat>, p: nat)
    requires p < |entry| && p < |exit|
    ensures var counts := entry[p] != 0 && exit[p] != 0 && entry[p] <= exit[p];
            && Counted(entry, exit, [p]) == (if counts then [p] else [])
            && Total(entry, exit, [p]) == (if counts then exit[p] - entry[p] else 0)
            && (counts ==> Duration(entry, exit, p) == exit[p] - entry[p])
  {
    assert [p][..0] == [];
  }

  /** What counts of two lists one behind the other is what counts of each, and the times add up. */
  lemma {:induction false} CountedJoins(entry: seq<nat>, exit: seq<nat>, a: seq<nat>, b: seq<nat>)
    ensures Counted(entry, exit, a + b) == Counted(entry, exit, a) + Counted(entry, exit, b)
    ensures Total(entry, exit, a + b) == Total(entry, exit, a) + Total(entry, exit, b)
    decreases |b|
  {
    if b == [] {
      assert a + b == a;
    } else {
      assert (a + b)[..|a + b| - 1] == a + b[..|b| - 1];
      CountedJoins(entry, exit, a, b[..|b| - 1]);
    }
  }

  /** The sums of the loop; `total` has 64 bits. */
  datatype Stats = Stats(count: nat, total: nat, min: nat, max: nat, first: nat, last: nat)

  /** What is reported; the durations have 32 bits. */
  datatype Report = Report(count: nat, average: nat, min: nat, max: nat, first: nat, last: nat)

  const U64 := 0x1_0000_0000_0000_0000

  /** `a / n`. */
  function Quotient(a: nat, n: nat): nat
    requires n > 0
  {
    if a < n then 0 else 1 + Quotient(a - n, n)
  }

  lemma {:induction false} QuotientIs(a: nat, n: nat)
    requires n > 0
    ensures Quotient(a, n) == a / n
    decreases a
  {
    if a < n {
      ModIs(a, 0, a, n);
    } else {
      QuotientIs(a - n, n);
      Successor((a - n) / n, n);
      ModIs(a, (a - n) / n + 1, (a - n) % n, n);
    }
  }

  function ReportOf(r: Stats): Report
    requires r.count > 0
  {
    Report(r.count, Quotient(r.total, r.count) % U32, r.min % U32, r.max % U32, r.first, r.last)
  }

  /** The same with full durations, of which `all` is the sum. */
  function Uncut(r: Stats, all: nat): Report
    requires r.count > 0
  {
    Report(r.count, Quotient(all, r.count), r.min, r.max, r.first, r.last)
  }

  ghost predicate StatsOf(r: Stats, entry: seq<nat>, exit: seq<nat>, list: seq<nat>) {
    var counted := Counted(entry, exit, list);
    && r.count == |counted| && r.total == Total(entry, exit, list) % U64
    && (forall k :: 0 <= k < |counted| ==> r.min <= Duration(entry, exit, counted[k]) <= r.max)
    && (counted != [] ==>
          && (exists k :: 0 <= k < |counted| && Duration(entry, exit, counted[k]) == r.min)
          && (exists k :: 0 <= k < |counted| && Duration(entry, exit, counted[k]) == r.max)
          && counted[0] < |entry| && r.first == entry[counted[0]]
          && counted[|counted| - 1] < |exit| && r.last == exit[counted[|counted| - 1]])
  }

  const MAX_U64 := U64 - 1

  /** The loop of prof_get_stats for one function, over a list that ends. */
  method Accumulate(ll: seq<nat>, entry: seq<nat>, exit: seq<nat>, head: nat, total: nat, ghost list: seq<nat>)
    returns (r: Stats)
    requires total <= |ll| == |entry| == |exit|
    requires Walk(ll, head, total, |list| + 1) == list
    requires forall p :: 0 <= p < |exit| ==> exit[p] <= MAX_U64
    ensures StatsOf(r, entry, exit, list)
  {
    r := Stats(0, 0, MAX_U64, 0, 0, 0);
    var p: nat := head;
    ghost var k: nat := 0;
    while p != NULL_INDEX && p < total
      invariant k <= |list| && Walk(ll, p, total, |list| + 1 - k) == list[k..]
      invariant StatsOf(r, entry, exit, list[..k])
      invariant r.count == 0 ==> r.min == MAX_U64 && r.max == 0
      decreases |list| - k
    {
      WalkAt(ll, p, total, list, k);
      if Counts(entry, exit, p) {
        r := WithSample(r, entry, exit, list[..k], p);
      } else {
        NotCounted(entry, exit, list[..k], p);
      }
      p := ll[p];
      k := k + 1;
    }
    assert list[..k] == list;
  }

  /** The statistics of one function: what the loop sums up, and what is reported if any sample counts. */
  method FunctionStats(ll: seq<nat>, entry: seq<nat>, exit: seq<nat>, head: nat, total: nat, ghost list: seq<nat>)
    returns (r: Stats, report: Report)
    requires total <= |ll| == |entry| == |exit|
    requires Walk(ll, head, total, |list| + 1) == list
    requires forall p :: 0 <= p < |exit| ==> exit[p] <= MAX_U64
    ensures StatsOf(r, entry, exit, list)
    ensures r.count > 0 ==> report == ReportOf(r)
    ensures r.count > 0 ==> report == Report(r.count, r.total / r.count % 0x1_0000_0000, r.min % 0x1_0000_0000,
                                             r.max % 0x1_0000_0000, r.first, r.last)
  {
    r := Accumulate(ll, entry, exit, head, total, list);
    report := Report(0, 0, 0, 0, 0, 0);
    if r.count > 0 {
      report := MakeReport(r);
    }
  }

  method MakeReport(r: Stats) returns (report: Report)
    requires r.count > 0
    ensures report == ReportOf(r)
    ensures report == Report(r.count, r.total / r.count % 0x1_0000_0000, r.min % 0x1_0000_0000,
                             r.max % 0x1_0000_0000, r.first, r.last)
  {
    QuotientIs(r.total, r.count);
    report := Report(r.count, r.total / r.count % U32, r.min % U32, r.max % U32, r.first, r.last);
  }

  lemma {:induction false} TotalAtMost(entry: seq<nat>, exit: seq<nat>, list: seq<nat>, max: nat)
    requires var counted := Counted(entry, exit, list);
             forall k :: 0 <= k < |counted| ==> Duration(entry, exit, counted[k]) <= max
    ensures var n := |Counted(entry, exit, list)|; Total(entry, exit, list) <= n * max && n <= |list|
    decreases |list|
  {
    if list != [] {
      var front, p := list[..|list| - 1], list[|list| - 1];
      var counted := Counted(entry, exit, front);
      assert Counts(entry, exit, p) ==> Counted(entry, exit, list)[|counted|] == p;
      assert forall k :: 0 <= k < |counted| ==> Counted(entry, exit, list)[k] == counted[k];
      TotalAtMost(entry, exit, front, max);
      Successor(|counted|, max);
    }
  }

  lemma Successor(n: nat, d: nat)
    ensures (n + 1) * d == n * d + d
  {
  }

  lemma Scaled(n: nat, m: nat, d: nat)
    requires n <= m
    ensures n * d <= m * d
  {
  }

  lemma {:induction false} QuotientAtMost(a: nat, n: nat, d: nat)
    requires n > 0 && a <= n * d
    ensures Quotient(a, n) <= d
    decreases a
  {
    if a >= n {
      if d == 0 {
        assert false;
      }
      Successor(d - 1, n);
      QuotientAtMost(a - n, n, d - 1);
    }
  }

  lemma Small(x: nat)
    ensures x < U32 ==> x % U32 == x
    ensures x < U64 ==> x % U64 == x
    ensures x % U32 == x ==> x < U32
  {
  }

  lemma AverageFits(all: nat, count: nat, max: nat)
    requires 0 < count <= MAX_SAMPLES && all <= count * max && max < U32
    ensures all < U64 && Quotient(all, count) <= max
  {
    Scaled(count, MAX_SAMPLES, max);
    QuotientAtMost(all, count, max);
  }

  /** The report gives the true least, greatest and average duration exactly when the greatest fits 32 bits. */
  lemma ReportExact(r: Stats, entry: seq<nat>, exit: seq<nat>, list: seq<nat>)
    requires StatsOf(r, entry, exit, list) && r.count > 0 && |list| <= MAX_SAMPLES
    ensures ReportOf(r) == Uncut(r, Total(entry, exit, list)) <==> r.max < U32
  {
    var all := Total(entry, exit, list);
    LeastAtMost(r, entry, exit, list);
    Small(r.max);
    if r.max < U32 {
      SumFits(r, entry, exit, list);
      Small(all);
      Fits(r, Quotient(all, r.count));
    }
  }

  lemma SumFits(r: Stats, entry: seq<nat>, exit: seq<nat>, list: seq<nat>)
    requires StatsOf(r, entry, exit, list) && 0 < r.count && |list| <= MAX_SAMPLES && r.max < U32
    ensures Total(entry, exit, list) < U64 && Quotient(Total(entry, exit, list), r.count) <= r.max
  {
    TotalAtMost(entry, exit, list, r.max);
    AverageFits(Total(entry, exit, list), r.count, r.max);
  }

  lemma Fits(r: Stats, average: nat)
    requires r.count > 0 && r.min <= r.max < U32 && average <= r.max && Quotient(r.total, r.count) == average
    ensures ReportOf(r) == Report(r.count, average, r.min, r.max, r.first, r.last)
  {
    Small(average);
    Small(r.min);
    Small(r.max);
  }

  lemma LeastAtMost(r: Stats, entry: seq<nat>, exit: seq<nat>, list: seq<nat>)
    requires StatsOf(r, entry, exit, list) && r.count > 0
    ensures r.min <= r.max
  {
    assert r.min <= Duration(entry, exit, Counted(entry, exit, list)[0]) <= r.max;
  }

  /** One turn of the loop goes from one sample of the list to the next. */
  lemma WalkAt(ll: seq<nat>, p: nat, total: nat, list: seq<nat>, k: nat)
    requires p != NULL_INDEX && p < total <= |ll| && k <= |list| && Walk(ll, p, total, |list| + 1 - k) == list[k..]
    ensures k < |list| && list[k] == p && list[..k + 1] == list[..k] + [p]
    ensures Walk(ll, ll[p], total, |list| - k) == list[k + 1..]
  {
    assert Walk(ll, p, total, |list| + 1 - k)[0] == p;
    assert list[k..][1..] == list[k + 1..];
  }

  lemma NotCounted(entry: seq<nat>, exit: seq<nat>, list: seq<nat>, p: nat)
    requires !Counts(entry, exit, p)
    ensures Counted(entry, exit, list + [p]) == Counted(entry, exit, list)
    ensures Total(entry, exit, list + [p]) == Total(entry, exit, list)
  {
    assert (list + [p])[..|list|] == list;
  }

  lemma SumCut(a: nat, d: nat)
    ensures (a % U64 + d) % U64 == (a + d) % U64
  {
  }

  method WithSample(r: Stats, entry: seq<nat>, exit: seq<nat>, ghost list: seq<nat>, p: nat) returns (r': Stats)
    requires Counts(entry, exit, p) && exit[p] <= MAX_U64 && StatsOf(r, entry, exit, list)
    requires r.count == 0 ==> r.min == MAX_U64 && r.max == 0
    ensures StatsOf(r', entry, exit, list + [p]) && r'.count > 0
  {
    ghost var counted := Counted(entry, exit, list);
    assert (list + [p])[..|list|] == list;
    assert Counted(entry, exit, list + [p]) == counted + [p];
    var duration := exit[p] - entry[p];
    SumCut(Total(entry, exit, list), duration);
    r' := Stats(r.count + 1, (r.total + duration) % U64,
                if duration < r.min then duration else r.min,
                if duration > r.max then duration else r.max,
                if r.count == 0 then entry[p] else r.first, exit[p]);
    ghost var longer := counted + [p];
    assert Duration(entry, exit, longer[|counted|]) == duration;
    if counted != [] {
      ghost var a :| 0 <= a < |counted| && Duration(entry, exit, counted[a]) == r.min;
      ghost var b :| 0 <= b < |counted| && Duration(entry, exit, counted[b]) == r.max;
      assert longer[a] == counted[a] && longer[b] == counted[b];
    }
  }

  // ---- Starting over ----

  /** prof_start, once profiling is off: empty lists, and the first `dirty` samples zeroed, or all of them. */
  function Restarted(s: State, dirty: nat): State {
    if s.next != STOP then s
    else
      var n := if 0 < dirty < MAX_SAMPLES then dirty else MAX_SAMPLES;
      State(0, Zeroed(s.ll, n), Zeroed(s.ts, n), Zeroed(s.exit, n),
            seq(|s.head|, _ => NULL_INDEX), seq(|s.tail|, _ => NULL_INDEX),
            s.hooks, seq(|s.order|, _ => []), seq(|s.place|, _ => Free))
  }

  function Zeroed(pool: seq<nat>, n: nat): (r: seq<nat>)
    ensures |r| == |pool|
  {
    seq(|pool|, p requires 0 <= p < |pool| => if p < n then 0 else pool[p])
  }

  /** The pool begins as one that was stopped and wholly started over. */
  lemma StartIsRestart(functions: nat, hooks: nat)
    ensures Restarted(Start(functions, hooks).(next := 0xFFFF_FFFF), 0) == Start(functions, hooks)
  {
  }

  /** Starting over, done only while profiling is off, empties every list and zeroes the samples below `dirty`, or
      all of them if that is 0 or not below their number. */
  lemma RestartIs(s: State, dirty: nat)
    requires Typed(s)
    ensures var r := Restarted(s, dirty);
            if s.next != 0xFFFF_FFFF then r == s
            else
              && r.next == 0 && r.hooks == s.hooks
              && (forall f :: 0 <= f < |s.order| ==>
                    r.head[f] == 0xFFFF_FFFF && r.tail[f] == 0xFFFF_FFFF && r.order[f] == [])
              && (forall p :: 0 <= p < 1024 ==>
                    var zero := dirty == 0 || dirty >= 1024 || p < dirty;
                    && r.ll[p] == (if zero then 0 else s.ll[p]) && r.ts[p] == (if zero then 0 else s.ts[p])
                    && r.exit[p] == (if zero then 0 else s.exit[p]) && r.place[p] == Free)
  {
  }

  /** The hook has taken a sample that it has not yet linked. */
  predicate HasSample(h: Hook) {
    h.Claimed? || h.Cleared? || h.Stamped? || h.Loaded? || h.Linking?
  }

  /** Starting over is safe exactly when no hook holds a sample; hooks that have only looked do no harm. */
  lemma RestartKeeps(s: State, dirty: nat)
    requires Inv(s) && s.next == STOP
    ensures Inv(Restarted(s, dirty)) <==> forall i :: 0 <= i < |s.hooks| ==> !HasSample(s.hooks[i])
  {
    var r := Restarted(s, dirty);
    forall i | 0 <= i < |s.hooks|
      ensures HookOk(r, i) <==> !HasSample(s.hooks[i])
    {
      assert HookOk(s, i);
    }
  }

  /** The loop of prof_start over the lists. */
  method ResetLists(head: array<nat>, tail: array<nat>)
    requires head.Length == tail.Length && head != tail
    modifies head, tail
    ensures head[..] == seq(head.Length, _ => NULL_INDEX) && tail[..] == seq(tail.Length, _ => NULL_INDEX)
  {
    var i := 0;
    while i < head.Length
      invariant 0 <= i <= head.Length
      invariant forall k :: 0 <= k < i ==> head[k] == NULL_INDEX && tail[k] == NULL_INDEX
    {
      head[i] := NULL_INDEX;
      tail[i] := NULL_INDEX;
      i := i + 1;
    }
  }

  // ---- What a wrap does ----

  /** Right after it every walk is empty, and so complete exactly for lists that are empty or that a hook is
      about to link to. */
  lemma WrapWalks(s: State, a: Action, f: nat, fuel: nat)
    requires Inv(s) && Wraps(s, a) && f < |s.order|
    ensures var t := Next(s, a);
            && t.order == s.order && f < |t.head| && Walk(t.ll, t.head[f], Taken(t), fuel) == []
            && ((Settled(t, f) ==> Walk(t.ll, t.head[f], Taken(t), fuel) == t.order[f])
                <==> !Settled(s, f) || s.order[f] == [])
  {
    var t := Next(s, a);
    assert forall i :: 0 <= i < |s.hooks| && s.hooks[i].Linking? ==> t.hooks[i] == s.hooks[i];
    assert forall i :: 0 <= i < |t.hooks| && t.hooks[i].Linking? ==> s.hooks[i] == t.hooks[i];
  }

  /** The hook has taken sample `p` and not yet put it in a list. */
  predicate HasTaken(h: Hook, p: nat) {
    (h.Claimed? || h.Cleared? || h.Stamped? || h.Loaded?) && h.p == p
  }

  predicate PlaceOk(s: State, p: nat)
    requires p < |s.place|
  {
    match s.place[p]
    case Free => true
    case Held(j) => j < |s.hooks| && HasTaken(s.hooks[j], p) && s.hooks[j].f < |s.order|
    case In(f, k) => f < |s.order| && k < |s.order[f]| && s.order[f][k] == p
  }

  /** The history of places tells where each sample is, and sample 0 is the first to be taken. */
  ghost predicate Accounted(s: State) {
    && (forall p :: 0 <= p < |s.place| ==> PlaceOk(s, p))
    && (|s.place| > 0 && s.place[0] == Free ==> Unused(s) && (s.next == 0 || s.next == STOP))
  }

  lemma ClaimPlaces(s: State, i: nat, f: nat, p: nat)
    requires Inv(s) && i < |s.hooks| && s.hooks[i] == Probed(f) && p < |s.place| && PlaceOk(s, p)
    ensures PlaceOk(Claim(s, i, f), p)
  {
    assert HookOk(s, i);
  }

  lemma ExchangePlaces(s: State, i: nat, f: nat, p: nat, t: nat, spurious: bool, q: nat)
    requires Inv(s) && i < |s.hooks| && s.hooks[i] == Loaded(f, p, t) && q < |s.place| && PlaceOk(s, q)
    ensures q < |Exchange(s, i, f, p, t, spurious).place| && PlaceOk(Exchange(s, i, f, p, t, spurious), q)
  {
    assert HookOk(s, i);
  }

  lemma PlacesKept(s: State, a: Action, p: nat)
    requires Inv(s) && p < |s.place| && PlaceOk(s, p)
    ensures p < |Next(s, a).place| && PlaceOk(Next(s, a), p)
  {
    if a.Step? && a.i < |s.hooks| {
      match s.hooks[a.i] {
        case Probed(f) => ClaimPlaces(s, a.i, f, p);
        case Loaded(f, q, t) => ExchangePlaces(s, a.i, f, q, t, a.spurious, p);
        case _ => assert HookOk(s, a.i);
      }
    }
  }

  lemma FirstKept(s: State, a: Action)
    requires Inv(s) && Accounted(s) && Next(s, a).place[0] == Free
    ensures Unused(Next(s, a)) && (Next(s, a).next == 0 || Next(s, a).next == STOP)
  {
    if a.Step? && a.i < |s.hooks| {
      assert HookOk(s, a.i);
    }
  }

  lemma AccountedStep(s: State, a: Action)
    requires Inv(s) && Accounted(s)
    ensures Accounted(Next(s, a))
  {
    forall p | 0 <= p < |Next(s, a).place|
      ensures PlaceOk(Next(s, a), p)
    {
      PlacesKept(s, a, p);
    }
    if |Next(s, a).place| > 0 && Next(s, a).place[0] == Free {
      FirstKept(s, a);
    }
  }

  lemma {:induction false} AccountedRun(s: State, acts: seq<Action>)
    requires Inv(s) && Accounted(s) && Harmless(s, acts)
    ensures Accounted(Run(s, acts))
    decreases |acts|
  {
    if acts != [] {
      HarmlessKeeps(s, acts[..|acts| - 1]);
      AccountedRun(s, acts[..|acts| - 1]);
      AccountedStep(Run(s, acts[..|acts| - 1]), acts[|acts| - 1]);
    }
  }

  lemma RunOne(s: State, acts: seq<Action>, a: Action)
    ensures Run(s, acts + [a]) == Next(Run(s, acts), a)
  {
    assert (acts + [a])[..|acts|] == acts;
  }

  lemma {:induction false} RunThen(s: State, acts: seq<Action>, more: seq<Action>)
    ensures Run(s, acts + more) == Run(Run(s, acts), more)
    decreases |more|
  {
    if more == [] {
      assert acts + more == acts;
    } else {
      var front := more[..|more| - 1];
      RunThen(s, acts, front);
      assert (acts + more)[..|acts + more| - 1] == acts + front;
    }
  }

  // ---- A call on its own ----

  /** An enter hook from its call to its return, and an exit hook. */
  function EnterCall(i: nat, f: nat, now: nat): seq<Action> {
    var a := Step(i, now, false);
    [] + [Enter(i, f)] + [a] + [a] + [a] + [a] + [a] + [a]
  }

  function ExitCall(i: nat, f: nat, now: nat): seq<Action> {
    [] + [Leave(i, f)] + [Step(i, now, false)] + [Step(i, now, false)]
  }

  function Six(s: State, a: Action): State {
    Next(Next(Next(Next(Next(Next(s, a), a), a), a), a), a)
  }

  lemma EnterCallIs(s: State, i: nat, f: nat, now: nat)
    ensures Run(s, EnterCall(i, f, now)) == Six(Next(s, Enter(i, f)), Step(i, now, false))
  {
    var a := Step(i, now, false);
    var c1 := [] + [Enter(i, f)];
    RunOne(s, [], Enter(i, f));
    RunOne(s, c1, a);
    RunOne(s, c1 + [a], a);
    RunOne(s, c1 + [a] + [a], a);
    RunOne(s, c1 + [a] + [a] + [a], a);
    RunOne(s, c1 + [a] + [a] + [a] + [a], a);
    RunOne(s, c1 + [a] + [a] + [a] + [a] + [a], a);
  }

  lemma SixIdle(s: State, a: Action, t: State)
    requires a.Step? && a.i < |t.hooks| && t.hooks[a.i] == Idle && t == Next(Next(s, a), a)
    ensures Six(s, a) == t
  {
    assert Next(t, a) == t;
  }

  /** The state once the hook's sample has its timestamp. */
  function WithStamp(s: State, i: nat, f: nat, now: nat): State
    requires Typed(s) && i < |s.hooks| && s.next < MAX_SAMPLES
  {
    var n := s.next;
    s.(next := n + 1, place := s.place[n := Held(i)], ll := s.ll[n := NULL_INDEX], ts := s.ts[n := now],
       hooks := s.hooks[i := Stamped(f, n)])
  }

  lemma FirstSteps(s: State, i: nat, f: nat, now: nat)
    requires Typed(s) && i < |s.hooks| && s.hooks[i] == Idle && f < |s.order| && s.next < MAX_SAMPLES
    ensures var a := Step(i, now, false);
            Next(Next(Next(Next(s, Enter(i, f)), a), a), a) == WithStamp(s, i, f, now)
  {
    var a, n := Step(i, now, false), s.next;
    var s1 := s.(hooks := s.hooks[i := Probed(f)]);
    assert Next(s, Enter(i, f)) == s1;
    var s2 := s1.(next := n + 1, place := s.place[n := Held(i)], hooks := s1.hooks[i := Claimed(f, n)]);
    assert Next(s1, a) == s2;
    var s3 := s2.(ll := s.ll[n := NULL_INDEX], hooks := s2.hooks[i := Cleared(f, n)]);
    assert Next(s2, a) == s3;
    assert s3.hooks[i := Stamped(f, n)] == s.hooks[i := Stamped(f, n)];
  }

  lemma LastSteps(s: State, i: nat, now: nat, f: nat, n: nat)
    requires Typed(s) && i < |s.hooks| && s.hooks[i] == Stamped(f, n) && f < |s.order| && n < MAX_SAMPLES
    requires s.tail[f] == NULL_INDEX || s.tail[f] < MAX_SAMPLES
    ensures var a, t := Step(i, now, false), s.tail[f];
            var r := s.(tail := s.tail[f := n], order := s.order[f := s.order[f] + [n]],
                        place := s.place[n := In(f, |s.order[f]|)], hooks := s.hooks[i := Idle]);
            Next(Next(Next(s, a), a), a)
            == if t == NULL_INDEX then r.(head := s.head[f := n]) else r.(ll := s.ll[t := n])
  {
    var a, t, k := Step(i, now, false), s.tail[f], |s.order[f]|;
    var s5 := s.(hooks := s.hooks[i := Loaded(f, n, t)]);
    assert Next(s, a) == s5;
    var s6 := s5.(tail := s.tail[f := n], order := s.order[f := s.order[f] + [n]], place := s5.place[n := In(f, k)],
                  hooks := s5.hooks[i := Linking(f, n, t, k)]);
    assert Next(s5, a) == s6;
    assert s6.hooks[i := Idle] == s.hooks[i := Idle];
  }

  /** An enter hook that runs alone while the pool has room takes the next sample: its timestamp is the time, it
      ends the list, and it is linked behind the tail or, in an empty list, becomes the head. */
  lemma EnterTakes(s: State, i: nat, f: nat, now: nat)
    requires Typed(s) && i < |s.hooks| && s.hooks[i] == Idle && f < |s.order| && s.next < 1024
    requires s.tail[f] == 0xFFFF_FFFF || s.tail[f] < 1024
    ensures var r, n, t, k := Run(s, EnterCall(i, f, now)), s.next, s.tail[f], |s.order[f]|;
            && r.next == n + 1 && r.ts == s.ts[n := now] && r.tail == s.tail[f := n]
            && (if t == 0xFFFF_FFFF then r.head == s.head[f := n] && r.ll == s.ll[n := 0xFFFF_FFFF]
                else r.head == s.head && r.ll == s.ll[n := 0xFFFF_FFFF][t := n])
            && r.order == s.order[f := s.order[f] + [n]] && r.place == s.place[n := In(f, k)]
            && r.exit == s.exit && r.hooks == s.hooks
  {
    EnterCallIs(s, i, f, now);
    FirstSteps(s, i, f, now);
    var s4 := WithStamp(s, i, f, now);
    LastSteps(s4, i, now, f, s.next);
    assert s4.hooks[i := Idle] == s.hooks;
    assert s4.place[s.next := In(f, |s.order[f]|)] == s.place[s.next := In(f, |s.order[f]|)];
  }

  /** Without room it takes nothing: the hook that finds the pool just used up switches profiling off, one that
      comes later still counts itself, and while profiling is off nothing changes at all. */
  lemma EnterFull(s: State, i: nat, f: nat, now: nat)
    requires Typed(s) && i < |s.hooks| && s.hooks[i] == Idle && f < |s.order| && s.next >= 1024
    ensures Run(s, EnterCall(i, f, now))
            == s.(next := if s.next == 1024 || s.next == 0xFFFF_FFFF then 0xFFFF_FFFF else s.next + 1)
  {
    EnterCallIs(s, i, f, now);
    var a := Step(i, now, false);
    if s.next == STOP {
      assert Next(s, Enter(i, f)) == s && Next(s, a) == s;
      SixIdle(s, a, s);
    } else {
      FullSteps(s, i, f, now);
      SixIdle(Next(s, Enter(i, f)), a, s.(next := if s.next == 1024 then STOP else s.next + 1));
    }
  }

  lemma FullSteps(s: State, i: nat, f: nat, now: nat)
    requires Typed(s) && i < |s.hooks| && s.hooks[i] == Idle && f < |s.order| && 1024 <= s.next < STOP
    ensures var a := Step(i, now, false);
            Next(Next(Next(s, Enter(i, f)), a), a) == s.(next := if s.next == 1024 then STOP else s.next + 1)
  {
    var a := Step(i, now, false);
    var s1 := s.(hooks := s.hooks[i := Probed(f)]);
    assert Next(s, Enter(i, f)) == s1;
    var h := if s.next == MAX_SAMPLES then Stopping else Idle;
    var s2 := s.(next := s.next + 1, hooks := s.hooks[i := h]);
    assert s1.hooks[i := h] == s.hooks[i := h];
    assert Next(s1, a) == s2;
    assert s.hooks[i := Idle] == s.hooks;
    assert s2.hooks[i := Idle] == s.hooks;
  }

  /** An exit hook on its own gives the newest sample of its function the time as its exit, if there is one and
      profiling is on. */
  lemma ExitStamps(s: State, i: nat, f: nat, now: nat)
    requires Typed(s) && i < |s.hooks| && s.hooks[i] == Idle && f < |s.order|
    requires s.tail[f] == 0xFFFF_FFFF || s.tail[f] < 1024
    ensures Run(s, ExitCall(i, f, now))
            == if s.next == 0xFFFF_FFFF || s.tail[f] == 0xFFFF_FFFF then s else s.(exit := s.exit[s.tail[f] := now])
  {
    var a := Step(i, now, false);
    RunOne(s, [], Leave(i, f));
    RunOne(s, [] + [Leave(i, f)], a);
    RunOne(s, [] + [Leave(i, f)] + [a], a);
    if s.next == STOP {
      assert Next(s, Leave(i, f)) == s && Next(s, a) == s;
    } else {
      ExitSteps(s, i, f, now);
    }
  }

  lemma ExitSteps(s: State, i: nat, f: nat, now: nat)
    requires Typed(s) && i < |s.hooks| && s.hooks[i] == Idle && f < |s.order| && s.next != STOP
    requires s.tail[f] == NULL_INDEX || s.tail[f] < MAX_SAMPLES
    ensures var a := Step(i, now, false);
            Next(Next(Next(s, Leave(i, f)), a), a)
            == if s.tail[f] == NULL_INDEX then s else s.(exit := s.exit[s.tail[f] := now])
  {
    var a, t := Step(i, now, false), s.tail[f];
    var s1 := s.(hooks := s.hooks[i := Leaving(f)]);
    assert Next(s, Leave(i, f)) == s1;
    var h := if t == NULL_INDEX then Idle else Left(t);
    var s2 := s.(hooks := s.hooks[i := h]);
    assert s1.hooks[i := h] == s2.hooks;
    assert Next(s1, a) == s2;
    assert s2.hooks[i := Idle] == s.hooks;
    assert s.hooks[i := Idle] == s.hooks;
  }

  /** A failed exchange of the tail, and only that, tries again, with the tail it found. */
  lemma ExchangeRetries(s: State, i: nat, now: nat, spurious: bool)
    requires Typed(s) && i < |s.hooks| && s.hooks[i].Loaded? && s.hooks[i].f < |s.order| && s.hooks[i].p < 1024
    ensures var h, r := s.hooks[i], Next(s, Step(i, now, spurious));
            if spurious || s.tail[h.f] != h.t then r == s.(hooks := s.hooks[i := Loaded(h.f, h.p, s.tail[h.f])])
            else r.tail[h.f] == h.p && r.hooks[i].Linking?
  {
  }

  /** No step of the run adds one to the stop value. */
  predicate NoWrap(s: State, acts: seq<Action>)
    decreases |acts|
  {
    acts == [] || (NoWrap(s, acts[..|acts| - 1]) && !Wraps(Run(s, acts[..|acts| - 1]), acts[|acts| - 1]))
  }

  lemma {:induction false} NoWrapIsHarmless(s: State, acts: seq<Action>)
    requires NoWrap(s, acts)
    ensures Harmless(s, acts)
    decreases |acts|
  {
    if acts != [] {
      NoWrapIsHarmless(s, acts[..|acts| - 1]);
    }
  }

  lemma {:induction false} NoWrapThen(s: State, acts: seq<Action>, more: seq<Action>)
    requires NoWrap(s, acts) && NoWrap(Run(s, acts), more)
    ensures NoWrap(s, acts + more)
    decreases |more|
  {
    if more == [] {
      assert acts + more == acts;
    } else {
      var front := more[..|more| - 1];
      NoWrapThen(s, acts, front);
      RunThen(s, acts, front);
      assert (acts + more)[..|acts + more| - 1] == acts + front;
    }
  }

  lemma RunFirst(s: State, a: Action, more: seq<Action>)
    requires !Wraps(s, a) && NoWrap(Next(s, a), more)
    ensures Run(s, [a] + more) == Run(Next(s, a), more) && NoWrap(s, [a] + more)
  {
    assert [a][..0] == [] && Run(s, [a]) == Next(s, a) && NoWrap(s, [a]);
    RunThen(s, [a], more);
    NoWrapThen(s, [a], more);
  }

  /** Steps a hook that has taken sample `p` still makes before it takes over the tail. */
  function StepsLeft(s: State, h: Hook): nat {
    match h
    case Claimed(_, _) => 5
    case Cleared(_, _) => 4
    case Stamped(_, _) => 3
    case Loaded(f, _, t) => if f < |s.tail| && s.tail[f] == t then 1 else 2
    case _ => 0
  }

  /** Left alone, such a hook puts the sample at the end of its function's list. */
  lemma {:induction false} ToExchange(s: State, j: nat, f: nat, p: nat) returns (acts: seq<Action>)
    requires Typed(s) && j < |s.hooks| && HasTaken(s.hooks[j], p) && s.hooks[j].f == f < |s.order| && p < MAX_SAMPLES
    ensures NoWrap(s, acts)
    ensures var t := Run(s, acts);
            && Typed(t) && t.next == s.next && t.order == s.order[f := s.order[f] + [p]]
            && |t.hooks| == |s.hooks| && forall i :: 0 <= i < |s.hooks| && i != j ==> t.hooks[i] == s.hooks[i]
    decreases StepsLeft(s, s.hooks[j])
  {
    var a := Step(j, 0, false);
    var t := Next(s, a);
    if s.hooks[j].Loaded? && s.tail[f] == s.hooks[j].t {
      acts := [];
    } else {
      acts := ToExchange(t, j, f, p);
    }
    RunFirst(s, a, acts);
    acts := [a] + acts;
  }

  /** With the pool started over, a free hook takes sample 0 and puts it in a list. */
  lemma TakesFirst(s: State, i: nat, f: nat) returns (acts: seq<Action>)
    requires Typed(s) && s.next == 0 && i < |s.hooks| && s.hooks[i] == Idle && f < |s.order|
    ensures NoWrap(s, acts) && Run(s, acts).order == s.order[f := s.order[f] + [0]]
  {
    var enter, step := Enter(i, f), Step(i, 0, false);
    var t := Next(s, enter);
    var u := Next(t, step);
    acts := ToExchange(u, i, f, 0);
    RunFirst(t, step, acts);
    RunFirst(s, enter, [step] + acts);
    acts := [enter] + ([step] + acts);
  }

  /** Some sample is in two places. */
  ghost predicate Doubled(order: seq<seq<nat>>) {
    exists f, k, g, m ::
      && 0 <= f < |order| && 0 <= k < |order[f]| && 0 <= g < |order| && 0 <= m < |order[g]|
      && (f, k) != (g, m) && order[f][k] == order[g][m]
  }

  lemma TwiceIn(order: seq<seq<nat>>, f: nat, k: nat, p: nat)
    requires f < |order| && k < |order[f]| && order[f][k] == p
    ensures Doubled(order[f := order[f] + [p]])
  {
    var now := order[f := order[f] + [p]];
    assert now[f][k] == p && now[f][|order[f]|] == p;
  }

  /** Once a sample has been taken, a step that adds one to the stop value lets later steps put sample 0 in two
      places. */
  lemma WrapDoubles(s: State, a: Action) returns (more: seq<Action>)
    requires Inv(s) && Accounted(s) && Wraps(s, a) && !Unused(s)
    ensures NoWrap(Next(s, a), more) && Doubled(Run(Next(s, a), more).order)
  {
    var t := Next(s, a);
    assert HookOk(s, a.i) && PlaceOk(s, 0);
    match s.place[0] {
      case In(f, k) =>
        more := TakesFirst(t, a.i, f);
        TwiceIn(t.order, f, k, 0);
      case Held(j) =>
        var f := s.hooks[j].f;
        var first := ToExchange(t, j, f, 0);
        var u := Run(t, first);
        more := TakesFirst(u, a.i, f);
        TwiceIn(u.order, f, |u.order[f]| - 1, 0);
        RunThen(t, first, more);
        NoWrapThen(t, first, more);
        more := first + more;
    }
  }

  lemma ApartIsNotDoubled(s: State)
    requires Inv(s)
    ensures !Doubled(s.order)
  {
    if Doubled(s.order) {
      var f, k, g, m :|
        && 0 <= f < |s.order| && 0 <= k < |s.order[f]| && 0 <= g < |s.order| && 0 <= m < |s.order[g]|
        && (f, k) != (g, m) && s.order[f][k] == s.order[g][m];
      SamplesApart(s, f, k, g, m);
    }
  }

  /** Whatever happens next, short of a step that adds one to the stop value, no sample is in two places. */
  ghost predicate StaysApart(s: State) {
    forall more :: NoWrap(s, more) ==> !Doubled(Run(s, more).order)
  }

  /** After any harmless run from the start, a step that adds one to the stop value does no harm to the lists
      exactly when the pool is unused: then no run without another such step puts a sample in two places;
      otherwise some run does. */
  lemma WrapHarms(functions: nat, hooks: nat, acts: seq<Action>, a: Action)
    requires Harmless(Start(functions, hooks), acts) && Wraps(Run(Start(functions, hooks), acts), a)
    ensures var s := Run(Start(functions, hooks), acts);
            Unused(s) <==> StaysApart(Next(s, a))
  {
    var s0 := Start(functions, hooks);
    StartOk(functions, hooks);
    HarmlessKeeps(s0, acts);
    AccountedRun(s0, acts);
    var s := Run(s0, acts);
    if Unused(s) {
      NextKeeps(s, a);
      forall more | NoWrap(Next(s, a), more)
        ensures !Doubled(Run(Next(s, a), more).order)
      {
        NoWrapIsHarmless(Next(s, a), more);
        HarmlessKeeps(Next(s, a), more);
        ApartIsNotDoubled(Run(Next(s, a), more));
      }
    } else {
      var more := WrapDoubles(s, a);
      assert NoWrap(Next(s, a), more) && Doubled(Run(Next(s, a), more).order);
    }
  }

  /** A hook that has probed, profiling switched off, and that hook's next step. */
  function LateClaim(i: nat): seq<Action> {
    [] + [Enter(i, 0)] + [Stop] + [Step(i, 0, false)]
  }

  lemma LateClaimIs(s: State, i: nat)
    ensures Run(s, LateClaim(i)) == Next(Next(Next(s, Enter(i, 0)), Stop), Step(i, 0, false))
  {
    RunOne(s, [], Enter(i, 0));
    RunOne(s, [] + [Enter(i, 0)], Stop);
    RunOne(s, [] + [Enter(i, 0)] + [Stop], Step(i, 0, false));
  }

  ghost predicate OneFunction(s: State, n: nat, tail: nat) {
    Typed(s) && |s.order| == 1 && |s.hooks| == 2 && s.hooks[0] == Idle && s.hooks[1] == Idle
    && s.next == n && s.tail[0] == tail
  }

  lemma CallTakes(s: State, n: nat, t: nat)
    requires OneFunction(s, n, t) && n < MAX_SAMPLES && (t == NULL_INDEX || t < MAX_SAMPLES)
    ensures var r := Run(s, EnterCall(0, 0, 0));
            && OneFunction(r, n + 1, n)
            && r.head[0] == (if t == NULL_INDEX then n else s.head[0])
            && (t != NULL_INDEX ==> r.ll[t] == n)
  {
    EnterTakes(s, 0, 0, 0);
  }

  /** The counterexample: one sample is taken; a second hook looks, profiling is switched off, and that
      hook's addition starts the pool over; the next call takes sample 0 again and links it to itself. A
      walk of that list never ends. */
  lemma WrapMakesLoop(fuel: nat)
    ensures var s := Run(Start(1, 2), EnterCall(0, 0, 0) + LateClaim(1) + EnterCall(0, 0, 0));
            |s.head| == 1 && s.head[0] == 0 && |s.ll| == MAX_SAMPLES && s.ll[0] == 0 && Taken(s) == 1
            && |Walk(s.ll, s.head[0], Taken(s), fuel)| == fuel
  {
    var s0 := Start(1, 2);
    RunThen(s0, EnterCall(0, 0, 0), LateClaim(1));
    RunThen(s0, EnterCall(0, 0, 0) + LateClaim(1), EnterCall(0, 0, 0));
    CallTakes(s0, 0, NULL_INDEX);
    var s1 := Run(s0, EnterCall(0, 0, 0));
    LateClaimIs(s1, 1);
    var s2 := Next(Next(Next(s1, Enter(1, 0)), Stop), Step(1, 0, false));
    assert OneFunction(s2, 0, 0);
    CallTakes(s2, 0, 0);
    LoopForever(Run(s2, EnterCall(0, 0, 0)).ll, fuel);
  }

  lemma {:induction false} LoopForever(ll: seq<nat>, fuel: nat)
    requires |ll| > 0 && ll[0] == 0
    ensures |Walk(ll, 0, 1, fuel)| == fuel
  {
    if fuel > 0 {
      LoopForever(ll, fuel - 1);
    }
  }
}
