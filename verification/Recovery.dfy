/** Runtime recovery and health publication (ai_processor_server.py). Each event is the code one
    asyncio task runs between two suspension points; events interleave freely. */
module Recovery {
  import opened Detection

  // ---- State and events ------------------------------------------------------------------------

  /** Where a recovery task stands. `generation` is the failure count its current round began with. */
  datatype Phase =
    | Created
    | Waiting(generation: nat, stalled: set<int>)
    | Checking(generation: nat)
    | Reopened
    | Exited
    | Stopped

  predicate Live(p: Phase) {
    p.Created? || p.Waiting? || p.Checking?
  }

  /** `tasks` are all recovery tasks ever created and `recovery` the one the servicer refers to.
      A publisher first waits for the health lock; the holder publishes the value it read on entry.
      `active` counts the admitted streams that have not ended. */
  datatype State = State(accepting: bool, closing: bool, generation: nat, stalled: set<int>,
                         recovery: Option<nat>, tasks: seq<Phase>,
                         waiting: nat, holder: Option<bool>, published: bool, active: nat)

  /** The state once startup has opened admission and published it. */
  const INIT := State(true, false, 0, {}, None, [], 0, None, true, 0)

  /** A failure is one of an admitted stream; streams already admitted go on through a drain. */
  datatype Event =
    | Admit
    | Leave
    | Fail(timedOut: Option<int>)
    | Finish(inference: int)
    | Begin(task: nat)
    | Waited(task: nat)
    | Passed(task: nat)
    | Broke(task: nat)
    | Cancelled(task: nat)
    | TakeLock
    | Publish
    | PublishFails(took: bool)
    | LeaveQueue
    | Drain
    | Close

  /** A round of the recovery loop starts: it waits for the stalled inferences, if any, then checks. */
  function Round(s: State): Phase {
    if s.stalled == {} then Checking(s.generation) else Waiting(s.generation, s.stalled)
  }

  predicate Enabled(s: State, e: Event) {
    match e
    case Admit => s.accepting
    case Leave => s.active > 0
    case Fail(_) => s.active > 0
    case Begin(t) => t < |s.tasks| && s.tasks[t] == Created
    case Waited(t) => t < |s.tasks| && s.tasks[t].Waiting? && s.tasks[t].stalled !! s.stalled
    case Passed(t) => t < |s.tasks| && s.tasks[t].Checking?
    case Broke(t) => t < |s.tasks| && (s.tasks[t].Waiting? || s.tasks[t].Checking?)
    case Cancelled(t) => s.closing && t < |s.tasks| && Live(s.tasks[t])
    case TakeLock => s.holder == None && s.waiting > 0
    case Publish => s.holder.Some?
    case PublishFails(_) => s.holder.Some?
    case LeaveQueue => s.waiting > 0
    case _ => true
  }

  function Entered(s: State): State {
    if s.closing then s
    else
      var counted := s.(generation := s.generation + 1, waiting := s.waiting + 1);
      if s.recovery.Some? then counted else counted.(recovery := Some(|s.tasks|), tasks := s.tasks + [Created])
  }

  function Apply(s: State, e: Event): State
    requires Enabled(s, e)
  {
    match e
    case Admit => s.(active := s.active + 1)
    case Leave => s.(active := s.active - 1)
    case Fail(timedOut) =>
      Entered(s.(accepting := false, stalled := if timedOut.Some? then s.stalled + {timedOut.value} else s.stalled))
    case Finish(inference) => s.(stalled := s.stalled - {inference})
    case Begin(t) => s.(tasks := s.tasks[t := Round(s)])
    case Waited(t) => s.(tasks := s.tasks[t := Checking(s.tasks[t].generation)])
    case Passed(t) =>
      if s.tasks[t].generation != s.generation then s.(tasks := s.tasks[t := Round(s)])
      else if s.closing then s.(tasks := s.tasks[t := Stopped])
      else s.(tasks := s.tasks[t := Reopened], recovery := None, accepting := true, waiting := s.waiting + 1)
    case Broke(t) => s.(tasks := s.tasks[t := Exited])
    case Cancelled(t) => s.(tasks := s.tasks[t := Stopped])
    case TakeLock => s.(holder := Some(s.accepting), waiting := s.waiting - 1)
    case Publish => s.(holder := None, published := s.holder.value)
    case PublishFails(took) => s.(holder := None, published := if took then s.holder.value else s.published)
    case LeaveQueue => s.(waiting := s.waiting - 1)
    case Drain => s.(accepting := false)
    case Close => s.(accepting := false, closing := true)
  }

  ghost predicate Run(states: seq<State>, events: seq<Event>) {
    && |states| == |events| + 1
    && states[0] == INIT
    && forall i {:trigger events[i]} :: 0 <= i < |events| ==>
      Enabled(states[i], events[i]) && states[i + 1] == Apply(states[i], events[i])
  }

  // ---- What every step keeps ---------------------------------------------------------------------

  /** A phase is consistent with the state: a round of the current generation has seen every stalled
      inference, so a check of the current generation runs with none left. */
  ghost predicate Consistent(s: State, t: nat)
    requires t < |s.tasks|
  {
    && (Live(s.tasks[t]) ==> s.recovery == Some(t))
    && (s.tasks[t].Stopped? ==> s.closing)
    && (s.tasks[t].Waiting? || s.tasks[t].Checking? ==> s.tasks[t].generation <= s.generation)
    && (s.tasks[t].Waiting? && !s.closing && s.tasks[t].generation == s.generation ==> s.stalled <= s.tasks[t].stalled)
    && (s.tasks[t].Checking? && !s.closing && s.tasks[t].generation == s.generation ==> s.stalled == {})
  }

  ghost predicate Inv(s: State) {
    && (forall t :: 0 <= t < |s.tasks| ==> Consistent(s, t))
    && (s.recovery.Some? ==> s.recovery.value < |s.tasks| && !s.tasks[s.recovery.value].Reopened?)
    && (s.recovery.None? && !s.closing ==> s.stalled == {})
    && (s.accepting ==> s.recovery.None? && !s.closing)
  }

  lemma StepKeepsInv(s: State, e: Event)
    requires Inv(s) && Enabled(s, e)
    ensures Inv(Apply(s, e))
  {
    var s' := Apply(s, e);
    if e.Passed? {
      assert Consistent(s, e.task);
    }
    forall t | 0 <= t < |s'.tasks| ensures Consistent(s', t) {
      if t < |s.tasks| {
        assert Consistent(s, t);
      }
    }
  }

  lemma {:induction false} RunKeepsInv(states: seq<State>, events: seq<Event>, k: nat)
    requires Run(states, events) && k < |states|
    ensures Inv(states[k])
  {
    if k > 0 {
      RunKeepsInv(states, events, k - 1);
      var e := events[k - 1];
      StepKeepsInv(states[k - 1], e);
    }
  }

  /** At most one recovery task is alive, and the servicer refers to it. */
  lemma OneRecoveryTask(states: seq<State>, events: seq<Event>, k: nat, t: nat, u: nat)
    requires Run(states, events) && k < |states|
    requires t < |states[k].tasks| && u < |states[k].tasks| && Live(states[k].tasks[t]) && Live(states[k].tasks[u])
    ensures t == u && states[k].recovery == Some(t)
  {
    RunKeepsInv(states, events, k);
    assert Consistent(states[k], t) && Consistent(states[k], u);
  }

  /** While streams are admitted no timed-out inference is still running and no recovery is under way. */
  lemma OpenMeansHealthy(states: seq<State>, events: seq<Event>, k: nat)
    requires Run(states, events) && k < |states| && states[k].accepting
    ensures states[k].stalled == {} && !states[k].closing
    ensures forall t :: 0 <= t < |states[k].tasks| ==> !Live(states[k].tasks[t])
  {
    RunKeepsInv(states, events, k);
    forall t | 0 <= t < |states[k].tasks| ensures !Live(states[k].tasks[t]) {
      assert Consistent(states[k], t);
    }
  }

  /** A timed-out inference is remembered until it ends, and keeps admission closed for as long. */
  lemma {:induction false} TimedOutKeepsClosed(states: seq<State>, events: seq<Event>, f: nat, k: nat, inference: int)
    requires Run(states, events) && f < k < |states| && events[f] == Fail(Some(inference))
    requires forall i :: f < i < k ==> events[i] != Finish(inference)
    ensures inference in states[k].stalled && !states[k].accepting
  {
    if f + 1 < k {
      TimedOutKeepsClosed(states, events, f, k - 1, inference);
    }
    assert events[k - 1] in events;
    StalledStep(states[k - 1], events[k - 1], inference);
    RunKeepsInv(states, events, k);
    hide Inv, Enabled, Apply;
    StalledMeansClosed(states[k]);
  }

  lemma StalledStep(s: State, e: Event, inference: int)
    requires Enabled(s, e)
    ensures e == Fail(Some(inference)) || (inference in s.stalled && e != Finish(inference)) ==>
              inference in Apply(s, e).stalled
  {
  }

  lemma StalledMeansClosed(s: State)
    requires Inv(s) && s.stalled != {}
    ensures !s.accepting
  {
  }

  /** Every stalled inference is one that timed out and has not ended since. */
  lemma {:induction false} StalledTimedOut(states: seq<State>, events: seq<Event>, k: nat, inference: int)
    returns (f: nat)
    requires Run(states, events) && k < |states| && inference in states[k].stalled
    ensures f < k && events[f] == Fail(Some(inference))
    ensures forall i :: f < i < k ==> events[i] != Finish(inference)
  {
    var e := events[k - 1];
    if e == Fail(Some(inference)) {
      f := k - 1;
    } else {
      f := StalledTimedOut(states, events, k - 1, inference);
    }
  }

  /** A failure of any kind closes admission at once, and it stays closed until a self-check passes. */
  lemma {:induction false} FailureCloses(states: seq<State>, events: seq<Event>, f: nat, k: nat)
    requires Run(states, events) && f < k < |states| && (events[f].Fail? || events[f].Drain? || events[f].Close?)
    requires forall i :: f < i < k ==> !events[i].Passed?
    ensures !states[k].accepting
  {
    var e := events[k - 1];
    if f + 1 < k {
      FailureCloses(states, events, f, k - 1);
    }
  }

  /** So no stream is admitted while a timed-out inference may still hold the device. */
  lemma NoAdmissionDuringStall(states: seq<State>, events: seq<Event>, f: nat, k: nat, inference: int)
    requires Run(states, events) && f < k < |events|
    requires events[f] == Fail(Some(inference)) && events[k] == Admit
    ensures exists i :: f < i < k && events[i] == Finish(inference)
  {
    if forall i :: f < i < k ==> events[i] != Finish(inference) {
      TimedOutKeepsClosed(states, events, f, k, inference);
    }
  }

  /** Task t has ended without reopening admission. */
  predicate Ended(s: State, t: nat) {
    t < |s.tasks| && (s.tasks[t].Exited? || s.tasks[t].Stopped?) && s.recovery == Some(t)
  }

  lemma EndedStaysEnded(s: State, e: Event, t: nat)
    requires Inv(s) && Ended(s, t) && Enabled(s, e)
    ensures Ended(Apply(s, e), t) && !Apply(s, e).accepting
  {
    StepKeepsInv(s, e);
    if e.Begin? || e.Waited? || e.Passed? || e.Broke? || e.Cancelled? {
      assert Consistent(s, e.task);
    }
  }

  /** A recovery that gave up or was cancelled is never followed by another: admission stays closed. */
  lemma {:induction false} NoRecoveryAfterGivingUp(states: seq<State>, events: seq<Event>, f: nat, k: nat, t: nat)
    requires Run(states, events) && f < k < |states| && (events[f] == Broke(t) || events[f] == Cancelled(t))
    ensures Ended(states[k], t) && !states[k].accepting
  {
    var e := events[k - 1];
    RunKeepsInv(states, events, k - 1);
    if f + 1 < k {
      NoRecoveryAfterGivingUp(states, events, f, k - 1, t);
      hide Inv, Ended, Apply;
      EndedStaysEnded(states[k - 1], e, t);
    } else {
      StepKeepsInv(states[f], e);
      assert Consistent(states[f], t);
    }
  }

  lemma StreamStep(s: State, e: Event)
    requires Enabled(s, e)
    ensures Apply(s, e).active == s.active + (if e.Admit? then 1 else if e.Leave? then -1 else 0)
  {
  }

  function Streams(events: seq<Event>): int
    decreases |events|
  {
    if events == [] then 0
    else
      var last := events[|events| - 1];
      Streams(events[..|events| - 1]) + if last.Admit? then 1 else if last.Leave? then -1 else 0
  }

  /** The stream count is what was admitted and has not left, whatever failed in between. */
  lemma {:induction false} StreamsAreCounted(states: seq<State>, events: seq<Event>, k: nat)
    requires Run(states, events) && k < |states|
    ensures states[k].active == Streams(events[..k])
  {
    if k > 0 {
      StreamsAreCounted(states, events, k - 1);
      assert events[k - 1] in events;
      assert events[..k][..k - 1] == events[..k - 1];
      StreamStep(states[k - 1], events[k - 1]);
      hide Enabled, Apply;
    }
  }

  /** A passed check ends the recovery unless a failure came after it began; then another round starts for
      that failure. Ending reopens admission exactly when the worker is not closing. */
  lemma PassedCheckDecides(s: State, t: nat)
    requires Inv(s) && Enabled(s, Passed(t))
    ensures var after := Apply(s, Passed(t));
            if s.tasks[t].generation == s.generation then
              !Live(after.tasks[t]) && (after.accepting <==> !s.closing) && (after.recovery.None? <==> !s.closing)
            else
              (after.tasks[t].Waiting? || after.tasks[t].Checking?) && after.tasks[t].generation == s.generation
              && (after.tasks[t].Checking? ==> s.stalled == {}) && !after.accepting
  {
    assert Consistent(s, t);
  }

  // ---- Reopening -----------------------------------------------------------------------------------

  /** Step j starts a self-check of task t. */
  ghost predicate CheckStarts(states: seq<State>, events: seq<Event>, j: nat, t: nat)
    requires Run(states, events) && j < |events|
  {
    && (events[j] == Begin(t) || events[j] == Waited(t) || events[j] == Passed(t))
    && t < |states[j + 1].tasks| && states[j + 1].tasks[t].Checking?
  }

  /** Task t runs one and the same self-check in all of states j+1 .. k. */
  ghost predicate SameCheck(states: seq<State>, j: nat, k: nat, t: nat)
    requires k < |states|
  {
    forall i :: j < i <= k ==>
      t < |states[i].tasks| && t < |states[k].tasks| && states[i].tasks[t] == states[k].tasks[t]
  }

  lemma {:induction false} CheckHasStart(states: seq<State>, events: seq<Event>, k: nat, t: nat) returns (j: nat)
    requires Run(states, events) && k < |states| && t < |states[k].tasks| && states[k].tasks[t].Checking?
    ensures j < k && CheckStarts(states, events, j, t) && SameCheck(states, j, k, t)
  {
    if k == 0 {
      assert false;
    } else {
      j := k - 1;
      var e := events[k - 1];
      CheckStep(states[k - 1], e, t);
      hide Apply, Enabled;
      if !CheckStarts(states, events, j, t) {
        j := CheckHasStart(states, events, k - 1, t);
      }
    }
  }

  lemma CheckStep(s: State, e: Event, t: nat)
    requires Enabled(s, e) && t < |Apply(s, e).tasks| && Apply(s, e).tasks[t].Checking?
    ensures e == Begin(t) || e == Waited(t) || e == Passed(t) || (t < |s.tasks| && s.tasks[t] == Apply(s, e).tasks[t])
  {
  }

  /** Every failure outside closing raises the generation, so an unchanged generation means no failure. */
  lemma {:induction false} GenerationCountsFailures(states: seq<State>, events: seq<Event>, j: nat, k: nat)
    requires Run(states, events) && j <= k < |states| && !states[k].closing
    ensures states[j].generation <= states[k].generation && !states[j].closing
    ensures states[j].generation == states[k].generation ==> forall i :: j <= i < k ==> !events[i].Fail?
  {
    if j < k {
      var e := events[k - 1];
      GenerationCountsFailures(states, events, j, k - 1);
    }
  }

  /** A round starts with the generation of that moment or keeps its own, never a later one. */
  lemma RoundGeneration(states: seq<State>, events: seq<Event>, j: nat, t: nat)
    requires Run(states, events) && j < |events| && CheckStarts(states, events, j, t)
    ensures states[j + 1].tasks[t].generation <= states[j + 1].generation
  {
    RunKeepsInv(states, events, j + 1);
    assert Consistent(states[j + 1], t);
  }

  /** Admission reopens only when a self-check that started after the latest failure has passed, with
      no timed-out inference left running. */
  lemma ReopensAfterCheck(states: seq<State>, events: seq<Event>, k: nat) returns (j: nat, t: nat)
    requires Run(states, events) && k < |events| && !states[k].accepting && states[k + 1].accepting
    ensures j < k && events[k] == Passed(t) && CheckStarts(states, events, j, t) && SameCheck(states, j, k, t)
    ensures forall i :: j <= i < k ==> !events[i].Fail?
    ensures states[k].stalled == {}
  {
    var e := events[k];
    t := e.task;
    j := CheckHasStart(states, events, k, t);
    RoundGeneration(states, events, j, t);
    GenerationCountsFailures(states, events, j + 1, k);
    var start := events[j];
    RunKeepsInv(states, events, k);
    assert Consistent(states[k], t);
  }

  /** The worker is closing exactly since its first Close. */
  lemma {:induction false} ClosingExactly(states: seq<State>, events: seq<Event>, k: nat)
    requires Run(states, events) && k < |states|
    ensures states[k].closing <==> Close in events[..k]
  {
    if k > 0 {
      ClosingExactly(states, events, k - 1);
      var e := events[k - 1];
      assert events[..k] == events[..k - 1] + [e];
    }
  }

  /** Closing is for good: from then on nothing is admitted, no failure is counted and no recovery starts. */
  lemma {:induction false} ClosedStaysClosed(states: seq<State>, events: seq<Event>, j: nat, k: nat)
    requires Run(states, events) && j < k < |states| && events[j] == Close
    ensures states[k].closing && !states[k].accepting
    ensures states[k].generation == states[j].generation && |states[k].tasks| == |states[j].tasks|
  {
    var e := events[k - 1];
    if j + 1 < k {
      ClosedStaysClosed(states, events, j, k - 1);
    }
    RunKeepsInv(states, events, k);
    StillClosed(states[k]);
    hide Inv;
  }

  lemma StillClosed(s: State)
    requires Inv(s) && s.closing
    ensures !s.accepting
  {
  }

  /** A failure is answered: until admission reopens or the worker closes, a recovery task is alive or
      the process has been told to exit. */
  lemma {:induction false} FailureIsAnswered(states: seq<State>, events: seq<Event>, f: nat, k: nat)
    requires Run(states, events) && f < k < |states| && events[f].Fail? && !states[k].closing
    requires forall i :: f < i <= k ==> !states[i].accepting
    ensures states[k].recovery.Some? && states[k].recovery.value < |states[k].tasks|
    ensures var p := states[k].tasks[states[k].recovery.value]; Live(p) || p.Exited?
  {
    var e := events[k - 1];
    if f + 1 < k {
      FailureIsAnswered(states, events, f, k - 1);
    }
    assert !states[k].accepting;
    RunKeepsInv(states, events, k);
    assert Consistent(states[k], states[k].recovery.value);
  }

  // ---- Published health ------------------------------------------------------------------------------

  /** A publisher in flight will publish the current admission, or it is published already. */
  ghost predicate Settled(s: State) {
    match s.holder
    case Some(value) => value == s.accepting || s.waiting > 0
    case None => s.published == s.accepting || s.waiting > 0
  }

  predicate LosesPublication(e: Event) {
    e.PublishFails? || e.LeaveQueue? || e.Drain? || e.Close?
  }

  /** Event i queues a publication: it counts a failure or reopens admission. */
  predicate Announces(states: seq<State>, events: seq<Event>, i: nat)
    requires Run(states, events) && i < |events|
  {
    (events[i].Fail? && !states[i].closing) || (events[i].Passed? && states[i + 1].accepting)
  }

  ghost function Announced(states: seq<State>, events: seq<Event>, k: nat): int
    requires Run(states, events) && k < |states|
  {
    if k == 0 then 0
    else
      Announced(states, events, k - 1)
      + (if Announces(states, events, k - 1) then 1 else 0)
      - (if events[k - 1].TakeLock? || events[k - 1].LeaveQueue? then 1 else 0)
  }

  /** Publications are conserved: each failure outside closing and each reopening queues one, and it stays
      queued until it gets the lock or is given up. */
  lemma {:induction false} PublicationsAreConserved(states: seq<State>, events: seq<Event>, k: nat)
    requires Run(states, events) && k < |states|
    ensures states[k].waiting == Announced(states, events, k)
  {
    if k > 0 {
      PublicationsAreConserved(states, events, k - 1);
      RunKeepsInv(states, events, k - 1);
      QueueStep(states[k - 1], events[k - 1]);
      assert events[k - 1] in events;
      hide Inv, Enabled, Apply;
    }
  }

  lemma QueueStep(s: State, e: Event)
    requires Inv(s) && Enabled(s, e)
    ensures Apply(s, e).waiting - s.waiting
            == (if (e.Fail? && !s.closing) || (e.Passed? && Apply(s, e).accepting) then 1 else 0)
               - (if e.TakeLock? || e.LeaveQueue? then 1 else 0)
  {
    if e.Passed? {
      assert Consistent(s, e.task);
    }
  }

  /** From a settled state, and from any publication that starts, the published health follows
      admission: once nothing is in flight, both agree. Only a lost publication since then, a drain or
      closing can break this. */
  lemma {:induction false} StaysSettled(states: seq<State>, events: seq<Event>, g: nat, k: nat)
    requires Run(states, events) && g <= k < |states|
    requires g == 0 || events[g - 1].TakeLock?
    requires forall i :: g <= i < k ==> !LosesPublication(events[i])
    requires !states[k].closing
    ensures Settled(states[k])
  {
    if g < k {
      var e := events[k - 1];
      StaysSettled(states, events, g, k - 1);
    } else if g > 0 {
      var e := events[g - 1];
    }
  }

  lemma HealthFollowsAdmission(states: seq<State>, events: seq<Event>, g: nat, k: nat)
    requires Run(states, events) && g <= k < |states|
    requires g == 0 || events[g - 1].TakeLock?
    requires forall i :: g <= i < k ==> !LosesPublication(events[i])
    requires !states[k].closing && states[k].holder == None && states[k].waiting == 0
    ensures states[k].published == states[k].accepting
  {
    StaysSettled(states, events, g, k);
  }

  // ---- A drain does not stop a recovery ------------------------------------------------------------

  /** The state after a list of events; None if one of them is not enabled. */
  function Outcome(s: State, events: seq<Event>): Option<State>
    decreases |events|
  {
    if events == [] then Some(s)
    else if Enabled(s, events[0]) then Outcome(Apply(s, events[0]), events[1..])
    else None
  }

  /** Some continuation before closing admits streams again; a quiet one has no further failure. */
  ghost predicate MayReopen(s: State, quiet: bool) {
    exists events :: Reopening(s, events, quiet)
  }

  predicate Continues(e: Event, quiet: bool) {
    !e.Close? && (quiet ==> !e.Fail?)
  }

  ghost predicate Reopening(s: State, events: seq<Event>, quiet: bool) {
    && (forall e :: e in events ==> Continues(e, quiet))
    && Outcome(s, events).Some? && Outcome(s, events).value.accepting
  }

  lemma Prepend(s: State, e: Event, quiet: bool)
    requires Enabled(s, e) && Continues(e, quiet) && MayReopen(Apply(s, e), quiet)
    ensures MayReopen(s, quiet)
  {
    var rest :| Reopening(Apply(s, e), rest, quiet);
    assert ([e] + rest)[1..] == rest;
    assert Reopening(s, [e] + rest, quiet);
  }

  /** A live recovery task has passes ahead of it; each of these steps brings it closer to reopening. */
  lemma {:induction false} LiveMayReopen(s: State, t: nat, quiet: bool)
    requires Inv(s) && !s.closing && t < |s.tasks| && Live(s.tasks[t])
    ensures MayReopen(s, quiet)
    decreases |s.stalled|, StepsLeft(s, s.tasks[t])
  {
    assert Consistent(s, t);
    var e := if s.stalled != {} then Finish(AnyOf(s.stalled)) else
             match s.tasks[t] case Created => Begin(t) case Waiting(_, _) => Waited(t) case _ => Passed(t);
    var s' := Apply(s, e);
    StepKeepsInv(s, e);
    if s'.accepting {
      assert Reopening(s', [], quiet);
    } else {
      LiveMayReopen(s', t, quiet);
    }
    Prepend(s, e, quiet);
  }

  function StepsLeft(s: State, p: Phase): nat {
    match p
    case Created => 3
    case Waiting(_, _) => 3
    case Checking(g) => if g == s.generation then 1 else 2
    case _ => 0
  }

  ghost function AnyOf(ids: set<int>): (id: int)
    requires ids != {}
    ensures id in ids
  {
    NoIds(ids);
    var id :| id in ids; id
  }

  ghost predicate AnyLive(s: State) {
    exists t :: 0 <= t < |s.tasks| && Live(s.tasks[t])
  }

  /** No recovery is alive and none can start: one has ended for good, or no stream is left to fail. */
  ghost predicate Shut(s: State, quiet: bool) {
    !s.accepting && !AnyLive(s) && (quiet || s.recovery.Some? || s.active == 0)
  }

  lemma StaysShut(s: State, e: Event, quiet: bool)
    requires Shut(s, quiet) && Enabled(s, e) && Continues(e, quiet)
    ensures Shut(Apply(s, e), quiet)
  {
    var s' := Apply(s, e);
    assert s'.tasks == s.tasks;
  }

  lemma {:induction false} ShutStaysClosed(s: State, events: seq<Event>, quiet: bool)
    requires Shut(s, quiet) && (forall e :: e in events ==> Continues(e, quiet)) && Outcome(s, events).Some?
    ensures !Outcome(s, events).value.accepting
    decreases |events|
  {
    if events != [] {
      assert events[0] in events;
      StaysShut(s, events[0], quiet);
      ShutStaysClosed(Apply(s, events[0]), events[1..], quiet);
    }
  }

  lemma ShutNeverReopens(s: State, quiet: bool)
    requires Shut(s, quiet)
    ensures !MayReopen(s, quiet)
  {
    if events :| Reopening(s, events, quiet) {
      ShutStaysClosed(s, events, quiet);
    }
  }

  /** A failing stream starts a recovery when there is none, and that recovery can reopen admission. */
  lemma FailureMayReopen(s: State)
    requires Inv(s) && !s.closing && s.recovery.None? && s.active > 0
    ensures MayReopen(s, false)
  {
    var s' := Apply(s, Fail(None));
    StepKeepsInv(s, Fail(None));
    assert Live(s'.tasks[|s.tasks|]);
    LiveMayReopen(s', |s.tasks|, false);
    Prepend(s, Fail(None), false);
  }

  /** Shutdown first drains (`set_accepting(False)`) and closes only after the jobs have paused. In
      between admission can open again: exactly when a recovery is alive at the drain, or none is and a
      stream still in flight may fail and start one. */
  lemma DrainMayReopenExactly(s: State)
    requires Inv(s) && !s.closing
    ensures MayReopen(Apply(s, Drain), false) <==> AnyLive(s) || (s.recovery.None? && s.active > 0)
  {
    var drained := Apply(s, Drain);
    StepKeepsInv(s, Drain);
    if t :| 0 <= t < |s.tasks| && Live(s.tasks[t]) {
      LiveMayReopen(drained, t, false);
    } else if s.recovery.None? && s.active > 0 {
      FailureMayReopen(drained);
    } else {
      assert !AnyLive(drained);
      ShutNeverReopens(drained, false);
    }
  }

  /** So while a stream is in flight a drain holds only in a process that recovery has told to exit. */
  lemma DrainHoldsOnlyOnExit(s: State)
    requires Inv(s) && !s.closing && s.active > 0
    ensures MayReopen(Apply(s, Drain), false) <==> !(s.recovery.Some? && s.tasks[s.recovery.value].Exited?)
  {
    DrainMayReopenExactly(s);
    if s.recovery.Some? {
      assert Consistent(s, s.recovery.value);
      forall t | 0 <= t < |s.tasks| && Live(s.tasks[t]) ensures s.recovery == Some(t) {
        assert Consistent(s, t);
      }
    }
  }

  /** Without a further failure only a recovery already alive can reopen admission. */
  lemma QuietDrainMayReopenExactly(s: State)
    requires Inv(s) && !s.closing
    ensures MayReopen(Apply(s, Drain), true) <==> AnyLive(s)
  {
    var drained := Apply(s, Drain);
    StepKeepsInv(s, Drain);
    if t :| 0 <= t < |s.tasks| && Live(s.tasks[t]) {
      LiveMayReopen(drained, t, true);
    } else {
      assert !AnyLive(drained);
      ShutNeverReopens(drained, true);
    }
  }

  /** A worker that reopens while draining: the recovery was under way. */
  lemma DrainedWorkerReopens() returns (states: seq<State>, events: seq<Event>)
    ensures Run(states, events) && events == [Admit, Fail(None), Begin(0), Drain, Passed(0)]
    ensures AnyLive(states[3]) && states[5].accepting && !states[5].closing
  {
    var s1 := Apply(INIT, Admit);
    var s2 := Apply(s1, Fail(None));
    var s3 := Apply(s2, Begin(0));
    var s4 := Apply(s3, Drain);
    states, events := [INIT, s1, s2, s3, s4, Apply(s4, Passed(0))], [Admit, Fail(None), Begin(0), Drain, Passed(0)];
    assert Live(s3.tasks[0]);
  }

  /** A worker that reopens while draining: nothing was wrong until a stream in flight failed. */
  lemma FailureReopensDrainedWorker() returns (states: seq<State>, events: seq<Event>)
    ensures Run(states, events) && events == [Admit, Drain, Fail(None), Begin(0), Passed(0)]
    ensures !AnyLive(states[1]) && states[5].accepting && !states[5].closing
  {
    var s1 := Apply(INIT, Admit);
    var s2 := Apply(s1, Drain);
    var s3 := Apply(s2, Fail(None));
    var s4 := Apply(s3, Begin(0));
    states, events := [INIT, s1, s2, s3, s4, Apply(s4, Passed(0))], [Admit, Drain, Fail(None), Begin(0), Passed(0)];
  }

  // ---- The servicer --------------------------------------------------------------------------------

  /** The servicer's fields. Its methods are the code between suspension points; each one's effect is
      the event it is named after. */
  class Servicer {
    var accepting: bool
    var closing: bool
    var failureGeneration: nat
    var stalledInferences: set<int>
    var recovery: Option<nat>
    var tasks: seq<Phase>
    var healthWaiters: nat
    var healthHolder: Option<bool>
    var published: bool
    var activeStreams: nat

    ghost function Abstract(): State
      reads this
    {
      State(accepting, closing, failureGeneration, stalledInferences, recovery, tasks,
            healthWaiters, healthHolder, published, activeStreams)
    }

    constructor ()
      ensures Abstract() == INIT && Inv(Abstract())
    {
      accepting, closing := true, false;
      failureGeneration := 0;
      stalledInferences := {};
      recovery, tasks := None, [];
      healthWaiters, healthHolder, published := 0, None, true;
      activeStreams := 0;
    }

    /** ProcessVideo admits a stream, or aborts it as unavailable. */
    method AdmitStream(runtimeReady: bool) returns (admitted: bool)
      requires Inv(Abstract())
      modifies this
      ensures admitted <==> old(accepting) && runtimeReady
      ensures Abstract() == if admitted then Apply(old(Abstract()), Admit) else old(Abstract())
      ensures Inv(Abstract())
    {
      admitted := accepting && runtimeReady;
      if admitted {
        StepKeepsInv(Abstract(), Admit);
        activeStreams := activeStreams + 1;
      }
    }

    /** The end of ProcessVideo. */
    method StreamEnded()
      requires Inv(Abstract()) && Enabled(Abstract(), Leave)
      modifies this
      ensures Abstract() == Apply(old(Abstract()), Leave) && Inv(Abstract())
    {
      StepKeepsInv(Abstract(), Leave);
      activeStreams := activeStreams - 1;
    }

    /** The failure branches of an inference: a timed-out one is remembered as stalled. */
    method InferenceFailed(timedOut: Option<int>)
      requires Inv(Abstract()) && Enabled(Abstract(), Fail(timedOut))
      modifies this
      ensures Abstract() == Apply(old(Abstract()), Fail(timedOut)) && Inv(Abstract())
      ensures !accepting
    {
      StepKeepsInv(Abstract(), Fail(timedOut));
      if timedOut.Some? {
        stalledInferences := stalledInferences + {timedOut.value};
      }
      EnterRecovery();
    }

    /** Stops admission; outside closing it also counts the failure, makes sure a recovery task exists
        and queues a publication. */
    method EnterRecovery()
      modifies this
      ensures Abstract() == Entered(old(Abstract()).(accepting := false))
    {
      accepting := false;
      if closing {
        return;
      }
      failureGeneration := failureGeneration + 1;
      if recovery.None? {
        recovery := Some(|tasks|);
        tasks := tasks + [Created];
      }
      healthWaiters := healthWaiters + 1;
    }

    method InferenceFinished(inference: int)
      requires Inv(Abstract())
      modifies this
      ensures Abstract() == Apply(old(Abstract()), Finish(inference)) && Inv(Abstract())
    {
      StepKeepsInv(Abstract(), Finish(inference));
      stalledInferences := stalledInferences - {inference};
    }

    /** The top of the recovery loop. */
    method StartRound(t: nat)
      requires t < |tasks|
      modifies this`tasks
      ensures tasks == old(tasks)[t := Round(old(Abstract()))]
    {
      var generation := failureGeneration;
      var stalled := stalledInferences;
      if stalled != {} {
        tasks := tasks[t := Waiting(generation, stalled)];
      } else {
        tasks := tasks[t := Checking(generation)];
      }
    }

    method BeginRecovery(t: nat)
      requires Inv(Abstract()) && Enabled(Abstract(), Begin(t))
      modifies this
      ensures Abstract() == Apply(old(Abstract()), Begin(t)) && Inv(Abstract())
    {
      StepKeepsInv(Abstract(), Begin(t));
      StartRound(t);
    }

    method StalledInferencesDone(t: nat)
      requires Inv(Abstract()) && Enabled(Abstract(), Waited(t))
      modifies this
      ensures Abstract() == Apply(old(Abstract()), Waited(t)) && Inv(Abstract())
    {
      StepKeepsInv(Abstract(), Waited(t));
      tasks := tasks[t := Checking(tasks[t].generation)];
    }

    /** The self-check returned: check again after a newer failure, else reopen unless closing. */
    method SelfCheckPassed(t: nat)
      requires Inv(Abstract()) && Enabled(Abstract(), Passed(t))
      modifies this
      ensures Abstract() == Apply(old(Abstract()), Passed(t)) && Inv(Abstract())
      ensures accepting ==> stalledInferences == {}
    {
      StepKeepsInv(Abstract(), Passed(t));
      if tasks[t].generation != failureGeneration {
        StartRound(t);
        return;
      }
      if closing {
        tasks := tasks[t := Stopped];
        return;
      }
      recovery := None;
      accepting := true;
      tasks := tasks[t := Reopened];
      healthWaiters := healthWaiters + 1;
    }

    /** The deadline passed or the self-check raised: the process is told to exit, and stays closed. */
    method RecoveryBroke(t: nat)
      requires Inv(Abstract()) && Enabled(Abstract(), Broke(t))
      modifies this
      ensures Abstract() == Apply(old(Abstract()), Broke(t)) && Inv(Abstract())
      ensures !accepting
    {
      StepKeepsInv(Abstract(), Broke(t));
      assert Consistent(Abstract(), t);
      tasks := tasks[t := Exited];
    }

    /** set_accepting(False) at the start of a shutdown: a recovery under way is left alone. */
    method StopAccepting()
      requires Inv(Abstract())
      modifies this
      ensures Abstract() == Apply(old(Abstract()), Drain) && Inv(Abstract())
    {
      StepKeepsInv(Abstract(), Drain);
      accepting := false;
    }

    method BeginClose()
      requires Inv(Abstract())
      modifies this
      ensures Abstract() == Apply(old(Abstract()), Close) && Inv(Abstract())
    {
      StepKeepsInv(Abstract(), Close);
      closing := true;
      accepting := false;
    }

    /** A publisher gets the lock and reads admission as it is now. */
    method TakeHealthLock()
      requires Inv(Abstract()) && Enabled(Abstract(), TakeLock)
      modifies this
      ensures Abstract() == Apply(old(Abstract()), TakeLock) && Inv(Abstract())
    {
      StepKeepsInv(Abstract(), TakeLock);
      healthWaiters := healthWaiters - 1;
      healthHolder := Some(accepting);
    }

    method HealthPublished()
      requires Inv(Abstract()) && Enabled(Abstract(), Publish)
      modifies this
      ensures Abstract() == Apply(old(Abstract()), Publish) && Inv(Abstract())
    {
      StepKeepsInv(Abstract(), Publish);
      published := healthHolder.value;
      healthHolder := None;
    }
  }
}
