/**
 * Pausing the hardware simulation: the caller and the hardware task share one mode word, and each read
 * and write of it is a step. Models sim_pause, sim_resume, sim_start and sim_suspend and the head of the
 * loop of vHardwareSimTask in port/freertos_sim.c.
 */
module PauseHandshake {
  datatype Mode = Normal | Pause | PauseAck

  /** The hardware task: before its first check, about to acknowledge, before its second check, in the
      100 ms wait, and in the tick body. */
  datatype Task = FirstCheck | Acknowledging | SecondCheck | Waiting | Body

  /** The caller of the four operations. */
  datatype Caller = Idle | WritingPause | Polling | CheckingAck | WritingNormal

  datatype State = State(
    mode: Mode,
    task: Task,
    caller: Caller,
    suspended: bool,   // the hardware task does not run
    granted: bool)     // history: sim_pause returned after an acknowledgement, and nothing was called since

  datatype Action = CallPause | CallResume | CallSuspend | CallStart | CallerStep | TaskStep

  function TaskNext(s: State): State {
    match s.task
    case FirstCheck => s.(task := if s.mode == Pause then Acknowledging else SecondCheck)
    case Acknowledging => s.(mode := PauseAck, task := SecondCheck)
    case SecondCheck => s.(task := if s.mode == PauseAck then Waiting else Body)
    case Waiting => s.(task := FirstCheck)
    case Body => s.(task := FirstCheck)
  }

  function CallerNext(s: State): State {
    match s.caller
    case Idle => s
    case WritingPause => s.(mode := Pause, caller := Polling)
    case Polling => if s.mode == PauseAck then s.(caller := Idle, granted := true) else s
    case CheckingAck => s.(caller := if s.mode == PauseAck then WritingNormal else Idle)
    case WritingNormal => s.(mode := Normal, caller := Idle)
  }

  /** A call starts only when the one before has returned. sim_pause returns at once while the simulation
      is suspended. */
  function Next(s: State, a: Action): State {
    match a
    case TaskStep => if s.suspended then s else TaskNext(s)
    case CallerStep => CallerNext(s)
    case CallPause =>
      if s.caller != Idle then s
      else if s.suspended then s.(granted := false)
      else s.(caller := WritingPause, granted := false)
    case CallResume => if s.caller != Idle then s else s.(caller := CheckingAck, granted := false)
    case CallSuspend => if s.caller != Idle then s else s.(suspended := true)
    case CallStart => if s.caller != Idle then s else s.(suspended := false)
  }

  const START := State(Normal, FirstCheck, Idle, true, false)

  function Run(s: State, acts: seq<Action>): State {
    if acts == [] then s else Next(Run(s, acts[..|acts| - 1]), acts[|acts| - 1])
  }

  // ---- Safety ----

  ghost predicate Inv(s: State) {
    && (s.mode == PauseAck ==> s.task != Body && s.task != Acknowledging)
    && (s.mode == Pause ==> s.caller == Polling)
    && (s.task == Acknowledging ==> s.mode == Pause)
    && (s.caller == Polling ==> s.mode != Normal)
    && (s.caller == WritingPause || s.caller == Polling ==> !s.suspended)
    && (s.caller == WritingNormal ==> s.mode == PauseAck)
    && (s.granted ==> s.mode == PauseAck && s.caller == Idle)
  }

  lemma NextKeeps(s: State, a: Action)
    requires Inv(s)
    ensures Inv(Next(s, a))
  {
  }

  lemma {:induction false} RunKeeps(s: State, acts: seq<Action>)
    requires Inv(s)
    ensures Inv(Run(s, acts))
  {
    if acts != [] {
      RunKeeps(s, acts[..|acts| - 1]);
      NextKeeps(Run(s, acts[..|acts| - 1]), acts[|acts| - 1]);
    }
  }

  /** However the steps interleave, from the return of an acknowledged sim_pause to the next call of
      sim_pause or sim_resume the hardware task is not in its tick body; suspending and starting the
      simulation in between does not change that. */
  lemma PausedMeansNoTick(acts: seq<Action>)
    ensures var s := Run(START, acts); s.granted ==> s.task != Body
  {
    RunKeeps(START, acts);
  }

  // ---- Progress ----

  function TaskSteps(s: State, n: nat): State {
    if n == 0 then s else Next(TaskSteps(s, n - 1), TaskStep)
  }

  /** A pause is acknowledged within four steps of the hardware task, wherever it stands when the pause is
      written: also between its two checks. The caller's next step then returns. */
  lemma PauseIsAcknowledged(s: State)
    requires Inv(s) && s.caller == Polling
    ensures exists n :: 0 <= n <= 4 && Returns(TaskSteps(s, n))
  {
    if s.mode == PauseAck {
      assert Returns(TaskSteps(s, 0));
    } else {
      assert TaskSteps(s, 0) == s;
      var one := TaskSteps(s, 1);
      assert one == TaskNext(s);
      var two := TaskSteps(s, 2);
      assert two == TaskNext(one);
      var three := TaskSteps(s, 3);
      assert three == TaskNext(two);
      var four := TaskSteps(s, 4);
      assert four == TaskNext(three);
      assert Returns(two) || Returns(three) || Returns(four) || Returns(one);
    }
  }

  /** The caller's next step returns, with the acknowledgement in the mode word. */
  predicate Returns(s: State) {
    s.mode == PauseAck && Next(s, CallerStep) == s.(caller := Idle, granted := true)
  }

  /** Nothing but steps: no call. */
  predicate StepsOnly(acts: seq<Action>) {
    forall i :: 0 <= i < |acts| ==> acts[i] == CallerStep || acts[i] == TaskStep
  }

  lemma {:induction false} PauseUnderway(s: State, acts: seq<Action>)
    requires Inv(s) && s.caller == Idle && !s.suspended && StepsOnly(acts)
    ensures var t := Run(Next(s, CallPause), acts);
            && Inv(t) && (t.caller == Idle ==> t.granted)
            && (t.caller == Idle || t.caller == WritingPause || t.caller == Polling)
  {
    if acts != [] {
      var front, last := acts[..|acts| - 1], acts[|acts| - 1];
      assert acts == front + [last];
      PauseUnderway(s, front);
      NextKeeps(Run(Next(s, CallPause), front), last);
    } else {
      NextKeeps(s, CallPause);
    }
  }

  /** A sim_pause of a running simulation, however its steps mix with the task's, has not returned before the
      acknowledgement is in the mode word. */
  lemma PauseReturns(before: seq<Action>, acts: seq<Action>)
    requires var s := Run(START, before); s.caller == Idle && !s.suspended && StepsOnly(acts)
    ensures var t := Run(Next(Run(START, before), CallPause), acts);
            t.caller == Idle ==> t.mode == PauseAck && t.granted && t.task != Body
  {
    RunKeeps(START, before);
    PauseUnderway(Run(START, before), acts);
  }

  function CallerSteps(acts: seq<Action>): nat {
    if acts == [] then 0
    else CallerSteps(acts[..|acts| - 1]) + (if acts[|acts| - 1] == CallerStep then 1 else 0)
  }

  lemma {:induction false} ResumeUnderway(s: State, acts: seq<Action>)
    requires Inv(s) && s.caller == Idle && StepsOnly(acts)
    ensures var t, n := Run(Next(s, CallResume), acts), CallerSteps(acts);
            && Inv(t) && (if n < 2 then t.mode == s.mode else t.mode == Normal)
            && t.caller == if n == 0 then CheckingAck else if n == 1 && s.mode == PauseAck then WritingNormal else Idle
  {
    if acts != [] {
      var front, last := acts[..|acts| - 1], acts[|acts| - 1];
      assert acts == front + [last];
      ResumeUnderway(s, front);
      NextKeeps(Run(Next(s, CallResume), front), last);
    } else {
      NextKeeps(s, CallResume);
    }
  }

  /** sim_resume, called whenever nothing else is, ends the pause with its second step and not before, however its
      steps mix with the task's: then the mode is normal, and within three more of its steps the task is back in
      its tick body. */
  lemma ResumeReturns(before: seq<Action>, acts: seq<Action>)
    requires Run(START, before).caller == Idle && StepsOnly(acts)
    ensures var s := Run(START, before);
            var t := Run(Next(s, CallResume), acts);
            && (s.mode == PauseAck ==> (t.mode == Normal <==> CallerSteps(acts) >= 2))
            && (CallerSteps(acts) >= 2 ==>
                  && t.caller == Idle && t.mode == Normal
                  && (!t.suspended ==> exists n :: 0 <= n <= 3 && TaskSteps(t, n).task == Body))
  {
    RunKeeps(START, before);
    ResumeUnderway(Run(START, before), acts);
    var t := Run(Next(Run(START, before), CallResume), acts);
    if t.mode == Normal && !t.suspended {
      EntersBody(t);
    }
  }

  lemma EntersBody(t: State)
    requires t.mode == Normal && t.task != Acknowledging && !t.suspended
    ensures exists n :: 0 <= n <= 3 && TaskSteps(t, n).task == Body
  {
    var one := TaskSteps(t, 1);
    assert TaskSteps(t, 0) == t && one == TaskNext(t);
    var two := TaskSteps(t, 2);
    assert two == TaskNext(one);
    var three := TaskSteps(t, 3);
    assert three == TaskNext(two);
  }

  /** While the simulation is suspended the task does not move and acknowledges nothing; only a start ends that. */
  lemma {:induction false} SuspendedStands(s: State, acts: seq<Action>)
    requires s.suspended && CallStart !in acts
    ensures Run(s, acts).suspended && Run(s, acts).task == s.task
    ensures Run(s, acts).mode == PauseAck ==> s.mode == PauseAck
  {
    if acts != [] {
      var front, last := acts[..|acts| - 1], acts[|acts| - 1];
      assert acts == front + [last];
      SuspendedStands(s, front);
    }
  }

  // ---- Where the promise ends ----

  lemma RunOne(s: State, acts: seq<Action>, a: Action)
    ensures Run(s, acts + [a]) == Next(Run(s, acts), a)
  {
    assert (acts + [a])[..|acts|] == acts;
  }

  lemma {:induction false} RunThen(s: State, acts: seq<Action>, more: seq<Action>)
    ensures Run(s, acts + more) == Run(Run(s, acts), more)
  {
    if more == [] {
      assert acts + more == acts;
    } else {
      var front := more[..|more| - 1];
      RunThen(s, acts, front);
      assert (acts + more)[..|acts + more| - 1] == acts + front;
    }
  }

  /** Neither a pause nor a resume is called. */
  ghost predicate Quiet(acts: seq<Action>) {
    CallPause !in acts && CallResume !in acts
  }

  /** Until the next pause or resume the task stays out of its tick body, whatever else happens. */
  ghost predicate KeptOut(s: State) {
    forall acts :: Quiet(acts) ==> Run(s, acts).task != Body
  }

  lemma {:induction false} AckStays(s: State, acts: seq<Action>)
    requires Inv(s) && s.caller == Idle && s.mode == PauseAck && Quiet(acts)
    ensures var t := Run(s, acts); Inv(t) && t.caller == Idle && t.mode == PauseAck && t.task != Body
  {
    if acts != [] {
      var front, last := acts[..|acts| - 1], acts[|acts| - 1];
      assert acts == front + [last];
      AckStays(s, front);
      NextKeeps(Run(s, front), last);
    }
  }

  function Steps(n: nat): seq<Action> {
    if n == 0 then [] else Steps(n - 1) + [TaskStep]
  }

  lemma {:induction false} StepsRun(s: State, n: nat)
    ensures Run(s, Steps(n)) == TaskSteps(s, n) && Quiet(Steps(n))
  {
    if n > 0 {
      StepsRun(s, n - 1);
      RunOne(s, Steps(n - 1), TaskStep);
    }
  }

  lemma NormalRunsOn(s: State)
    requires s.mode == Normal && s.task != Acknowledging && s.caller == Idle
    ensures !KeptOut(s)
  {
    var t := Next(s, CallStart);
    RunOne(s, [], CallStart);
    EntersBody(t);
    var n :| 0 <= n <= 3 && TaskSteps(t, n).task == Body;
    StepsRun(t, n);
    var acts := [] + [CallStart] + Steps(n);
    RunThen(s, [] + [CallStart], Steps(n));
    assert Quiet(acts) && Run(s, acts).task == Body;
  }

  /** A pause that has returned, acknowledged or not, keeps the task out of its tick body exactly when the
      mode word then holds the acknowledgement. */
  lemma PauseIsKept(acts: seq<Action>)
    requires Run(START, acts).caller == Idle
    ensures KeptOut(Run(START, acts)) <==> Run(START, acts).mode == PauseAck
  {
    var s := Run(START, acts);
    RunKeeps(START, acts);
    if s.mode == PauseAck {
      forall more | Quiet(more)
        ensures Run(s, more).task != Body
      {
        AckStays(s, more);
      }
    } else {
      NormalRunsOn(s);
    }
  }

  /** sim_pause also returns true while the simulation is suspended, and then promises nothing: suspended
      in the tick body, paused and started again, the task is in its body. */
  lemma SuspendedPauseIsNotKept()
    ensures var acts := [] + [CallStart] + [TaskStep] + [TaskStep] + [CallSuspend] + [CallPause] + [CallStart];
            var s := Run(START, acts);
            s.task == Body && !s.suspended && s.caller == Idle && s.mode == Normal
  {
    var a := [] + [CallStart];
    RunOne(START, [], CallStart);
    RunOne(START, a, TaskStep);
    RunOne(START, a + [TaskStep], TaskStep);
    RunOne(START, a + [TaskStep] + [TaskStep], CallSuspend);
    RunOne(START, a + [TaskStep] + [TaskStep] + [CallSuspend], CallPause);
    RunOne(START, a + [TaskStep] + [TaskStep] + [CallSuspend] + [CallPause], CallStart);
  }
}
