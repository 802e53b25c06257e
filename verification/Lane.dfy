/** The inference lane (service/runtime.py, PriorityLane): an asynchronous lock with a live and a
    VOD queue, hand-off on release and cancellation at every suspension point. The atomic steps
    are the code between awaits. */
module Lane {
  import opened Detection

  // ---- State -----------------------------------------------------------------------------

  datatype Future = Pending | Granted | Cancelled

  /** One acquirer: suspended on its future, holding the lane, or finished. `mustCancel` is a
      cancellation requested after the future was granted but before the acquirer resumed. */
  datatype Task =
    | Waiting(live: bool, future: Future, mustCancel: bool)
    | Owner(live: bool)
    | Gone(live: bool)

  datatype State = State(held: bool, live: seq<nat>, vod: seq<nat>, tasks: map<nat, Task>) {

    predicate Waits(id: nat, future: Future) {
      id in tasks && tasks[id].Waiting? && tasks[id].future == future
    }

    /** Owns the lane, or was granted it and has not resumed yet. */
    predicate Holder(id: nat) {
      id in tasks && (tasks[id].Owner? || (tasks[id].Waiting? && tasks[id].future == Granted))
    }

    function Queue(forLive: bool): seq<nat> {
      if forLive then live else vod
    }
  }

  const IDLE := State(false, [], [], map[])

  /** Some future of the queue is not cancelled. */
  predicate AnyUncancelled(s: State, queue: seq<nat>) {
    exists id :: id in queue && !s.Waits(id, Cancelled)
  }

  predicate Blocked(s: State, live: bool) {
    AnyUncancelled(s, s.live) || (!live && AnyUncancelled(s, s.vod))
  }

  /** The queue without its leading cancelled futures. */
  function Skip(s: State, queue: seq<nat>): seq<nat> {
    if queue != [] && s.Waits(queue[0], Cancelled) then Skip(s, queue[1..]) else queue
  }

  /** deque.remove: drops the first occurrence, if any. */
  function Without(queue: seq<nat>, id: nat): seq<nat> {
    if queue == [] then [] else if queue[0] == id then queue[1..] else [queue[0]] + Without(queue[1..], id)
  }

  // ---- Atomic steps ------------------------------------------------------------------------

  datatype Event =
    | Call(id: nat, live: bool)   // acquire() up to its first await
    | Cancel(id: nat)             // the awaiting task is cancelled
    | Resume(id: nat)             // the awaiting task runs again
    | Finish(id: nat)             // the holder calls release()

  /** Completing a future that is already done raises. */
  function SetResult(s: State, id: nat): Result<State> {
    if s.Waits(id, Pending) then Ok(s.(tasks := s.tasks[id := s.tasks[id].(future := Granted)]))
    else Err("invalid state")
  }

  function Release(s: State): Result<State> {
    if !s.held then Err("lane is not acquired")
    else
      var live := Skip(s, s.live);
      if live != [] then SetResult(s.(live := live), live[0])
      else
        var vod := Skip(s, s.vod);
        if vod != [] then SetResult(s.(live := live, vod := vod), vod[0])
        else Ok(s.(held := false, live := live, vod := vod))
  }

  function Leave(s: State, id: nat, task: Task): State {
    State(s.held, Without(s.live, id), Without(s.vod, id), s.tasks[id := task])
  }

  predicate Enabled(s: State, e: Event) {
    match e
    case Call(id, _) => id !in s.tasks
    case Cancel(id) => id in s.tasks && s.tasks[id].Waiting?
    case Resume(id) => s.Waits(id, Granted) || s.Waits(id, Cancelled)
    case Finish(id) => id in s.tasks && s.tasks[id].Owner?
  }

  function CallStep(s: State, id: nat, live: bool): State {
    if !s.held && !Blocked(s, live) then s.(held := true, tasks := s.tasks[id := Owner(live)])
    else State(s.held, if live then s.live + [id] else s.live, if live then s.vod else s.vod + [id],
               s.tasks[id := Waiting(live, Pending, false)])
  }

  function CancelStep(s: State, id: nat): State
    requires id in s.tasks && s.tasks[id].Waiting?
  {
    var task := s.tasks[id];
    s.(tasks := s.tasks[id := if task.future == Pending then task.(future := Cancelled)
                              else if task.future == Granted then task.(mustCancel := true) else task])
  }

  function ResumeStep(s: State, id: nat): Result<State>
    requires s.Waits(id, Granted) || s.Waits(id, Cancelled)
  {
    var task := s.tasks[id];
    if task.future == Granted && !task.mustCancel then Ok(Leave(s, id, Owner(task.live)))
    else
      var left := Leave(s, id, Gone(task.live));
      if task.future == Granted && s.held then Release(left) else Ok(left)
  }

  function Step(s: State, e: Event): Result<State>
    requires Enabled(s, e)
  {
    match e
    case Call(id, live) => Ok(CallStep(s, id, live))
    case Cancel(id) => Ok(CancelStep(s, id))
    case Resume(id) => ResumeStep(s, id)
    case Finish(id) => Release(s.(tasks := s.tasks[id := Gone(s.tasks[id].live)]))
  }

  /** The step runs release(). */
  predicate Releases(s: State, e: Event)
    requires Enabled(s, e)
  {
    e.Finish? || (e.Resume? && s.Waits(e.id, Granted) && s.tasks[e.id].mustCancel)
  }

  // ---- Invariant ---------------------------------------------------------------------------

  ghost predicate Distinct(queue: seq<nat>) {
    forall i, j :: 0 <= i < j < |queue| ==> queue[i] != queue[j]
  }

  /** Queue entries are suspended acquirers of that class; nobody ahead of a granted one waits. */
  ghost predicate QueueOk(s: State, forLive: bool) {
    var queue := s.Queue(forLive);
    && Distinct(queue)
    && (forall id :: id in queue ==> id in s.tasks && s.tasks[id].Waiting? && s.tasks[id].live == forLive)
    && (forall i, j :: 0 <= i < j < |queue| && s.Waits(queue[j], Granted) ==> s.Waits(queue[i], Cancelled))
  }

  /** A suspended acquirer that was not cancelled is still queued in its class. */
  ghost predicate Queued(s: State) {
    forall id :: id in s.tasks && s.tasks[id].Waiting? && s.tasks[id].future != Cancelled ==>
      id in s.Queue(s.tasks[id].live)
  }

  ghost predicate OneHolder(s: State) {
    && (forall a, b :: s.Holder(a) && s.Holder(b) ==> a == b)
    && (s.held ==> exists a :: s.Holder(a))
    && (!s.held ==> forall a :: !s.Holder(a))
  }

  ghost predicate NoLostWakeup(s: State) {
    !s.held ==> forall id :: !s.Waits(id, Pending)
  }

  ghost predicate Inv(s: State) {
    QueueOk(s, true) && QueueOk(s, false) && Queued(s) && OneHolder(s) && NoLostWakeup(s)
  }

  // ---- Queues ------------------------------------------------------------------------------

  lemma SkipSuffix(s: State, queue: seq<nat>) returns (n: nat)
    ensures n <= |queue| && Skip(s, queue) == queue[n..]
    ensures forall i :: 0 <= i < n ==> s.Waits(queue[i], Cancelled)
    ensures n < |queue| ==> !s.Waits(queue[n], Cancelled)
  {
    if queue != [] && s.Waits(queue[0], Cancelled) {
      var m := SkipSuffix(s, queue[1..]);
      n := m + 1;
      assert queue[1..][m..] == queue[n..];
      forall i | 0 <= i < n ensures s.Waits(queue[i], Cancelled) {
        if i > 0 { assert queue[i] == queue[1..][i - 1]; }
      }
    } else {
      n := 0;
    }
  }

  lemma CutTail(queue: seq<nat>, m: nat)
    requires m + 1 < |queue|
    ensures queue[..m + 1] + queue[m + 2..] == [queue[0]] + (queue[1..][..m] + queue[1..][m + 1..])
  {
    assert queue[1..][m + 1..] == queue[m + 2..];
    assert [queue[0]] + queue[1..][..m] == queue[..m + 1];
  }

  lemma WithoutAt(queue: seq<nat>, id: nat) returns (cut: nat)
    ensures cut <= |queue|
    ensures cut < |queue| ==> queue[cut] == id && Without(queue, id) == queue[..cut] + queue[cut + 1..]
    ensures cut == |queue| ==> id !in queue && Without(queue, id) == queue
  {
    if queue == [] {
      cut := 0;
    } else if queue[0] == id {
      cut := 0;
      assert queue[..0] + queue[1..] == queue[1..];
    } else {
      var m := WithoutAt(queue[1..], id);
      cut := m + 1;
      if cut < |queue| {
        CutTail(queue, m);
      } else {
        assert [queue[0]] + queue[1..] == queue;
      }
    }
  }

  /** Removing an entry keeps the others, in order. */
  lemma WithoutKeeps(queue: seq<nat>, id: nat)
    requires Distinct(queue)
    ensures Distinct(Without(queue, id))
    ensures forall x :: x in Without(queue, id) <==> x in queue && x != id
    ensures |Without(queue, id)| <= |queue|
  {
    var cut := WithoutAt(queue, id);
    hide Without;
    if cut < |queue| {
      forall x | x in queue && x != id ensures x in queue[..cut] + queue[cut + 1..] {
        var i :| 0 <= i < |queue| && queue[i] == x;
        assert (queue[..cut] + queue[cut + 1..])[if i < cut then i else i - 1] == x;
      }
    }
  }

  lemma WithoutOrder(queue: seq<nat>, id: nat, i: nat, j: nat) returns (i': nat, j': nat)
    requires i < j < |Without(queue, id)|
    ensures i' < j' < |queue| && queue[i'] == Without(queue, id)[i] && queue[j'] == Without(queue, id)[j]
  {
    var cut := WithoutAt(queue, id);
    i', j' := if i < cut then i else i + 1, if j < cut then j else j + 1;
  }

  // ---- Every step keeps the invariant ------------------------------------------------------

  lemma FreeIsUnblocked(s: State, live: bool)
    requires Inv(s) && !s.held
    ensures !Blocked(s, live)
  {
    forall x | x in s.live || x in s.vod ensures s.Waits(x, Cancelled) {
      assert !s.Waits(x, Pending) && !s.Holder(x);
    }
  }

  lemma CallTakesFreeLane(s: State, id: nat, live: bool)
    requires Inv(s) && id !in s.tasks && !s.held
    ensures CallStep(s, id, live) == s.(held := true, tasks := s.tasks[id := Owner(live)]) && Inv(CallStep(s, id, live))
  {
    FreeIsUnblocked(s, live);
    hide Blocked;
    var t := CallStep(s, id, live);
    assert t.Holder(id);
    forall a | t.Holder(a) ensures a == id {
      assert !s.Holder(a);
    }
  }

  lemma CallJoinsQueue(s: State, id: nat, live: bool)
    requires Inv(s) && id !in s.tasks && s.held
    ensures Inv(CallStep(s, id, live))
  {
    var t := CallStep(s, id, live);
    assert id !in s.live && id !in s.vod;
    assert QueueOk(t, true) && QueueOk(t, false) && Queued(t);
    hide QueueOk, Queued;
    forall a ensures t.Holder(a) == s.Holder(a) {}
    var h :| s.Holder(h);
    assert t.Holder(h);
  }

  lemma CallKeepsInv(s: State, id: nat, live: bool)
    requires Inv(s) && id !in s.tasks
    ensures Inv(CallStep(s, id, live))
    ensures CallStep(s, id, live).tasks[id] == (if s.held then Waiting(live, Pending, false) else Owner(live))
  {
    hide Inv;
    if s.held {
      CallJoinsQueue(s, id, live);
    } else {
      CallTakesFreeLane(s, id, live);
    }
  }

  lemma CancelKeepsQueues(s: State, id: nat)
    requires Inv(s) && id in s.tasks && s.tasks[id].Waiting?
    ensures var t := CancelStep(s, id); QueueOk(t, true) && QueueOk(t, false) && Queued(t)
  {
  }

  lemma CancelKeepsInv(s: State, id: nat)
    requires Inv(s) && id in s.tasks && s.tasks[id].Waiting?
    ensures Inv(CancelStep(s, id))
  {
    var t := CancelStep(s, id);
    CancelKeepsQueues(s, id);
    hide QueueOk, Queued;
    forall x ensures t.Holder(x) == s.Holder(x) {}
    forall x ensures t.Waits(x, Pending) ==> s.Waits(x, Pending) {}
    if s.held {
      var h :| s.Holder(h);
      assert t.Holder(h);
    }
  }

  /** A state between the holder giving up and release(): nobody holds, nobody was granted. */
  ghost predicate Vacant(s: State) {
    && QueueOk(s, true) && QueueOk(s, false) && Queued(s) && s.held && forall a :: !s.Holder(a)
  }

  lemma DropLeading(s: State, forLive: bool)
    requires Vacant(s)
    ensures var t := if forLive then s.(live := Skip(s, s.live)) else s.(vod := Skip(s, s.vod)); Vacant(t)
    ensures var q := Skip(s, s.Queue(forLive)); q != [] ==> s.Waits(q[0], Pending)
    ensures var q := Skip(s, s.Queue(forLive)); q == [] ==>
            forall id :: id in s.tasks && s.tasks[id].live == forLive ==> !s.Waits(id, Pending)
  {
    var queue := s.Queue(forLive);
    var n := SkipSuffix(s, queue);
    var q := Skip(s, queue);
    var t := if forLive then s.(live := q) else s.(vod := q);
    hide Skip;
    SuffixKeeps(s, queue, n);
    forall a ensures !t.Holder(a) {
      assert !s.Holder(a);
    }
    if q != [] {
      assert q[0] == queue[n] && queue[n] in queue;
      assert !s.Holder(q[0]);
    }
    assert QueueOk(t, forLive) by { SuffixQueueOk(s, t, forLive, n); }
    forall id | id in s.tasks && s.tasks[id].live == forLive && q == [] ensures !s.Waits(id, Pending) {
      assert s.Waits(id, Pending) ==> id in queue;
    }
  }

  lemma SuffixKeeps(s: State, queue: seq<nat>, n: nat)
    requires n <= |queue| && forall i :: 0 <= i < n ==> s.Waits(queue[i], Cancelled)
    ensures forall x :: x in queue && !s.Waits(x, Cancelled) ==> x in queue[n..]
  {
    forall x | x in queue && !s.Waits(x, Cancelled) ensures x in queue[n..] {
      var i :| 0 <= i < |queue| && queue[i] == x;
      assert queue[n..][i - n] == x;
    }
  }

  lemma SuffixQueueOk(s: State, t: State, forLive: bool, n: nat)
    requires QueueOk(s, forLive) && t.tasks == s.tasks && n <= |s.Queue(forLive)|
             && t.Queue(forLive) == s.Queue(forLive)[n..]
    ensures QueueOk(t, forLive)
  {
    var queue, q := s.Queue(forLive), t.Queue(forLive);
    forall id | id in q ensures id in s.tasks && s.tasks[id].Waiting? && s.tasks[id].live == forLive {
      assert id in queue;
    }
    forall i, j | 0 <= i < j < |q| && t.Waits(q[j], Granted) ensures t.Waits(q[i], Cancelled) {
      assert s.Waits(queue[n + j], Granted);
    }
  }

  lemma GrantKeepsInv(s: State, forLive: bool)
    requires Vacant(s) && s.Queue(forLive) != [] && s.Waits(s.Queue(forLive)[0], Pending)
    ensures SetResult(s, s.Queue(forLive)[0]).Ok? && Inv(SetResult(s, s.Queue(forLive)[0]).value)
  {
    var id := s.Queue(forLive)[0];
    var t := SetResult(s, id).value;
    assert t.Holder(id);
    forall a | t.Holder(a) ensures a == id {
      assert !s.Holder(a);
    }
  }

  /** release() from a vacant state never raises, and hands the lane on or frees it. */
  lemma ReleaseWorks(s: State)
    requires Vacant(s)
    ensures Release(s).Ok? && Inv(Release(s).value)
  {
    hide QueueOk, Queued;
    DropLeading(s, true);
    var live := Skip(s, s.live);
    if live != [] {
      GrantKeepsInv(s.(live := live), true);
    } else {
      var t := s.(live := live);
      SkipSame(s, t, s.vod);
      DropLeading(t, false);
      var vod := Skip(t, t.vod);
      if vod != [] {
        GrantKeepsInv(t.(vod := vod), false);
      } else {
        FreeLane(t.(vod := vod));
      }
    }
  }

  /** release() raises exactly when nobody holds the lane. */
  lemma ReleaseRaisesExactly(s: State)
    requires Vacant(s) || !s.held
    ensures Release(s).Err? <==> !s.held
  {
    if Vacant(s) {
      ReleaseWorks(s);
    }
  }

  /** A caller is blocked exactly when somebody who goes first waits or has been granted the lane. */
  lemma BlockedExactly(s: State, live: bool)
    requires Inv(s)
    ensures Blocked(s, live) <==>
              exists id :: id in s.tasks && s.tasks[id].Waiting? && s.tasks[id].future != Cancelled
                             && (live ==> s.tasks[id].live)
  {
    if id :| id in s.tasks && s.tasks[id].Waiting? && s.tasks[id].future != Cancelled && (live ==> s.tasks[id].live) {
      assert id in s.Queue(s.tasks[id].live) && !s.Waits(id, Cancelled);
    }
    if Blocked(s, live) {
      var id :| (id in s.live || (!live && id in s.vod)) && !s.Waits(id, Cancelled);
      assert QueueOk(s, true) && QueueOk(s, false);
    }
  }

  lemma FreeLane(s: State)
    requires Vacant(s) && s.live == [] && s.vod == []
    ensures Inv(s.(held := false))
  {
    var t := s.(held := false);
    forall a ensures !t.Holder(a) {
      assert !s.Holder(a);
    }
    forall id ensures !t.Waits(id, Pending) {
      assert s.Waits(id, Pending) ==> id in s.Queue(s.tasks[id].live);
    }
  }

  lemma SkipSame(s: State, t: State, queue: seq<nat>)
    requires s.tasks == t.tasks
    ensures Skip(s, queue) == Skip(t, queue)
  {
  }

  lemma LeaveQueueOk(s: State, id: nat, task: Task, forLive: bool)
    requires QueueOk(s, forLive) && !task.Waiting?
    ensures QueueOk(Leave(s, id, task), forLive)
  {
    var t := Leave(s, id, task);
    var queue, left := s.Queue(forLive), t.Queue(forLive);
    WithoutKeeps(queue, id);
    hide Without;
    forall x | x in left ensures x in t.tasks && t.tasks[x] == s.tasks[x] && x in s.tasks {}
    forall i, j | 0 <= i < j < |left| && t.Waits(left[j], Granted) ensures t.Waits(left[i], Cancelled) {
      var i', j' := WithoutOrder(queue, id, i, j);
      assert left[i] in left && left[j] in left;
    }
  }

  lemma LeaveQueued(s: State, id: nat, task: Task)
    requires QueueOk(s, true) && QueueOk(s, false) && Queued(s) && !task.Waiting?
    ensures Queued(Leave(s, id, task))
  {
    WithoutKeeps(s.live, id);
    WithoutKeeps(s.vod, id);
    hide Without;
  }

  lemma HolderLeaves(s: State, id: nat, live: bool)
    requires Inv(s) && s.Holder(id)
    ensures Vacant(Leave(s, id, Gone(live)))
  {
    LeaveQueueOk(s, id, Gone(live), true);
    LeaveQueueOk(s, id, Gone(live), false);
    LeaveQueued(s, id, Gone(live));
    hide Without, QueueOk, Queued;
    var t := Leave(s, id, Gone(live));
    forall a ensures !t.Holder(a) {
      assert t.Holder(a) ==> s.Holder(a) && a != id;
    }
  }

  lemma FinishIsVacant(s: State, id: nat)
    requires Inv(s) && id in s.tasks && s.tasks[id].Owner?
    ensures Vacant(s.(tasks := s.tasks[id := Gone(s.tasks[id].live)]))
  {
    var t := s.(tasks := s.tasks[id := Gone(s.tasks[id].live)]);
    assert s.Holder(id);
    forall a ensures !t.Holder(a) {
      assert t.Holder(a) ==> s.Holder(a) && a != id;
    }
    forall x, f ensures x != id ==> t.Waits(x, f) == s.Waits(x, f) {}
  }

  lemma ResumeKeepsInv(s: State, id: nat)
    requires Inv(s) && (s.Waits(id, Granted) || s.Waits(id, Cancelled))
    ensures ResumeStep(s, id).Ok? && Inv(ResumeStep(s, id).value)
  {
    var task := s.tasks[id];
    if task.future == Granted && task.mustCancel {
      assert s.Holder(id);
      HolderLeaves(s, id, task.live);
      ReleaseWorks(Leave(s, id, Gone(task.live)));
    } else {
      var next := if task.future == Granted then Owner(task.live) else Gone(task.live);
      LeaveKeepsInv(s, id, next);
    }
  }

  /** Leaving the queues without giving up or taking the lane. */
  lemma LeaveKeepsInv(s: State, id: nat, next: Task)
    requires Inv(s) && id in s.tasks && s.tasks[id].Waiting? && s.tasks[id].future != Pending
    requires next == (if s.tasks[id].future == Granted then Owner(s.tasks[id].live) else Gone(s.tasks[id].live))
    ensures Inv(Leave(s, id, next))
  {
    LeaveQueueOk(s, id, next, true);
    LeaveQueueOk(s, id, next, false);
    LeaveQueued(s, id, next);
    hide Without, QueueOk, Queued;
    var t := Leave(s, id, next);
    forall a ensures t.Holder(a) == s.Holder(a) {}
    forall x ensures t.Waits(x, Pending) ==> s.Waits(x, Pending) {}
    if s.held {
      var h :| s.Holder(h);
      assert t.Holder(h);
    }
  }

  /** No step raises, and every step keeps the invariant: at most one acquirer holds or has been
      granted the lane, and a free lane leaves nobody waiting. */
  lemma StepKeepsInv(s: State, e: Event)
    requires Inv(s) && Enabled(s, e)
    ensures Step(s, e).Ok? && Inv(Step(s, e).value)
  {
    hide Inv, ResumeStep, Release, CallStep, CancelStep;
    match e {
      case Call(id, live) => CallKeepsInv(s, id, live);
      case Cancel(id) => CancelKeepsInv(s, id);
      case Resume(id) => ResumeKeepsInv(s, id);
      case Finish(id) =>
        FinishIsVacant(s, id);
        ReleaseWorks(s.(tasks := s.tasks[id := Gone(s.tasks[id].live)]));
    }
  }

  // ---- Who can be granted ------------------------------------------------------------------

  /** `id` gets the lane in this step. */
  ghost predicate NewlyHolds(s: State, t: State, id: nat) {
    !s.Holder(id) && t.Holder(id)
  }

  /** release() grants only the first waiting acquirer, live before VOD. */
  lemma ReleaseGrants(s: State, id: nat)
    requires Vacant(s) && Release(s).Ok? && Release(s).value.Holder(id)
    ensures id in s.tasks && s.Waits(id, Pending) && id in s.Queue(s.tasks[id].live)
    ensures !s.tasks[id].live ==> forall x :: x in s.live ==> !s.Waits(x, Pending)
    ensures var queue := s.Queue(s.tasks[id].live);
            forall i, j :: 0 <= i < j < |queue| && queue[j] == id ==> s.Waits(queue[i], Cancelled)
  {
    assert !s.Holder(id);
    var n := SkipSuffix(s, s.live);
    var live := Skip(s, s.live);
    if live != [] {
      assert id == live[0] == s.live[n];
      GrantedIsFirst(s, s.live, n);
    } else {
      var t := s.(live := live);
      SkipSame(s, t, s.vod);
      var m := SkipSuffix(s, s.vod);
      assert id == Skip(s, s.vod)[0] == s.vod[m];
      GrantedIsFirst(s, s.vod, m);
      forall x | x in s.live ensures s.Waits(x, Cancelled) {
        var i :| 0 <= i < |s.live| && s.live[i] == x;
        assert i < n;
      }
    }
  }

  lemma GrantedIsFirst(s: State, queue: seq<nat>, n: nat)
    requires Distinct(queue) && n < |queue| && forall i :: 0 <= i < n ==> s.Waits(queue[i], Cancelled)
    ensures forall i, j :: 0 <= i < j < |queue| && queue[j] == queue[n] ==> s.Waits(queue[i], Cancelled)
  {
    forall i, j | 0 <= i < j < |queue| && queue[j] == queue[n] ensures s.Waits(queue[i], Cancelled) {
      assert j == n;
    }
  }

  lemma WithoutOrderForward(queue: seq<nat>, id: nat, i: nat, j: nat) returns (i': nat, j': nat)
    requires Distinct(queue) && i < j < |queue| && queue[i] != id && queue[j] != id
    ensures i' < j' < |Without(queue, id)|
    ensures Without(queue, id)[i'] == queue[i] && Without(queue, id)[j'] == queue[j]
  {
    var cut := WithoutAt(queue, id);
    hide Without;
    i', j' := if i < cut then i else i - 1, if j < cut then j else j - 1;
  }

  /** `a` stands somewhere before `b` in the queue. */
  ghost predicate Precedes(queue: seq<nat>, a: nat, b: nat) {
    exists i, j :: 0 <= i < j < |queue| && queue[i] == a && queue[j] == b
  }

  /** Just before release() runs in a releasing step. */
  function Vacated(s: State, e: Event): State
    requires Enabled(s, e) && Releases(s, e)
  {
    if e.Finish? then s.(tasks := s.tasks[e.id := Gone(s.tasks[e.id].live)])
    else Leave(s, e.id, Gone(s.tasks[e.id].live))
  }

  lemma VacatedIsVacant(s: State, e: Event)
    requires Inv(s) && Enabled(s, e) && Releases(s, e)
    ensures Vacant(Vacated(s, e)) && Step(s, e) == Release(Vacated(s, e))
  {
    if e.Finish? {
      FinishIsVacant(s, e.id);
    } else {
      assert s.Holder(e.id);
      HolderLeaves(s, e.id, s.tasks[e.id].live);
    }
  }

  /** The one giving up the lane is not waiting; everyone else keeps waiting in order. */
  lemma VacatedKeeps(s: State, e: Event, x: nat)
    requires Inv(s) && Enabled(s, e) && Releases(s, e)
    ensures Vacated(s, e).Waits(x, Pending) <==> s.Waits(x, Pending)
    ensures s.Waits(x, Pending) ==> Vacated(s, e).tasks[x] == s.tasks[x]
    ensures s.Waits(x, Pending) ==> x in Vacated(s, e).Queue(s.tasks[x].live)
  {
    WithoutKeeps(s.live, e.id);
    WithoutKeeps(s.vod, e.id);
    hide Without;
  }

  lemma VacatedPrecedes(s: State, e: Event, forLive: bool, a: nat, b: nat)
    requires Inv(s) && Enabled(s, e) && Releases(s, e)
    requires s.Waits(a, Pending) && s.Waits(b, Pending) && Precedes(s.Queue(forLive), a, b)
    ensures Precedes(Vacated(s, e).Queue(forLive), a, b)
  {
    if e.Resume? {
      var i, j :| 0 <= i < j < |s.Queue(forLive)| && s.Queue(forLive)[i] == a && s.Queue(forLive)[j] == b;
      var i', j' := WithoutOrderForward(s.Queue(forLive), e.id, i, j);
    }
  }

  /** Who gets the lane was first in line: no live acquirer waits while a VOD acquirer is granted,
      and nobody of the same class waits in front of the one granted. */
  lemma GrantIsFair(s: State, e: Event, id: nat, x: nat)
    requires Inv(s) && Enabled(s, e) && Step(s, e).Ok? && NewlyHolds(s, Step(s, e).value, id)
    requires s.Waits(x, Pending)
    ensures id in s.tasks && s.Waits(id, Pending)
    ensures s.tasks[x].live ==> s.tasks[id].live
    ensures s.tasks[x].live == s.tasks[id].live ==> !Precedes(s.Queue(s.tasks[x].live), x, id)
  {
    if Releases(s, e) {
      var v := Vacated(s, e);
      VacatedIsVacant(s, e);
      hide Vacated, Step, Vacant, Release;
      ReleaseGrants(v, id);
      VacatedKeeps(s, e, id);
      VacatedKeeps(s, e, x);
      if s.tasks[x].live == s.tasks[id].live && Precedes(s.Queue(s.tasks[x].live), x, id) {
        VacatedPrecedes(s, e, s.tasks[x].live, x, id);
      }
    } else {
      NoGrantWithoutRelease(s, e, id);
    }
  }

  /** Without a release the lane only goes to a caller that found it free. */
  lemma NoGrantWithoutRelease(s: State, e: Event, id: nat)
    requires Inv(s) && Enabled(s, e) && !Releases(s, e)
    requires Step(s, e).Ok? && NewlyHolds(s, Step(s, e).value, id)
    ensures e.Call? && e.id == id && !s.held
  {
    hide Inv, QueueOk, Queued, Without, Release, Skip;
  }

  // ---- Waiting in order --------------------------------------------------------------------

  lemma NeverPendingAgain(s: State, e: Event, x: nat)
    requires Inv(s) && Enabled(s, e) && Step(s, e).Ok? && x in s.tasks && !s.Waits(x, Pending)
    ensures x in Step(s, e).value.tasks && !Step(s, e).value.Waits(x, Pending)
    ensures Step(s, e).value.tasks[x].live == s.tasks[x].live
  {
    hide Inv, Without, Skip;
  }

  lemma ClassIsFixed(s: State, e: Event, x: nat)
    requires Inv(s) && Enabled(s, e) && Step(s, e).Ok? && x in s.tasks
    ensures x in Step(s, e).value.tasks && Step(s, e).value.tasks[x].live == s.tasks[x].live
  {
    hide Inv, Without, Skip;
  }

  lemma SkipPrecedes(s: State, queue: seq<nat>, a: nat, b: nat)
    requires Precedes(queue, a, b) && s.Waits(a, Pending)
    ensures Precedes(Skip(s, queue), a, b)
  {
    var n := SkipSuffix(s, queue);
    var i, j :| 0 <= i < j < |queue| && queue[i] == a && queue[j] == b;
    assert n <= i;
    hide Skip;
    var q := Skip(s, queue);
    assert q[i - n] == a && q[j - n] == b;
  }

  lemma ReleasePrecedes(s: State, forLive: bool, a: nat, b: nat)
    requires Release(s).Ok? && Precedes(s.Queue(forLive), a, b) && s.Waits(a, Pending)
    ensures Precedes(Release(s).value.Queue(forLive), a, b)
  {
    SkipPrecedes(s, s.Queue(forLive), a, b);
    hide Skip, Precedes;
  }

  lemma StepPrecedes(s: State, e: Event, forLive: bool, a: nat, b: nat)
    requires Inv(s) && Enabled(s, e) && Step(s, e).Ok?
    requires s.Waits(a, Pending) && s.Waits(b, Pending) && Precedes(s.Queue(forLive), a, b)
    ensures Precedes(Step(s, e).value.Queue(forLive), a, b)
  {
    if Releases(s, e) {
      VacatedIsVacant(s, e);
      VacatedKeeps(s, e, a);
      VacatedPrecedes(s, e, forLive, a, b);
      hide Vacated, Vacant, Precedes;
      ReleasePrecedes(Vacated(s, e), forLive, a, b);
    } else {
      QuietPrecedes(s, e, forLive, a, b);
    }
  }

  lemma QuietPrecedes(s: State, e: Event, forLive: bool, a: nat, b: nat)
    requires Inv(s) && Enabled(s, e) && Step(s, e).Ok? && !Releases(s, e)
    requires s.Waits(a, Pending) && s.Waits(b, Pending) && Precedes(s.Queue(forLive), a, b)
    ensures Precedes(Step(s, e).value.Queue(forLive), a, b)
  {
    hide Queued, NoLostWakeup, Release, Skip, Blocked;
    var queue := s.Queue(forLive);
    var i, j :| 0 <= i < j < |queue| && queue[i] == a && queue[j] == b;
    var after := Step(s, e).value.Queue(forLive);
    if e.Resume? {
      var i', j' := WithoutOrderForward(queue, e.id, i, j);
      hide Without;
      assert after == Without(queue, e.id);
    } else {
      assert after[i] == a && after[j] == b;
    }
  }

  // ---- Bounded waiting ---------------------------------------------------------------------

  /** Waiting acquirers in front of `a`. */
  function AheadIn(s: State, queue: seq<nat>, a: nat): nat {
    if queue == [] || queue[0] == a then 0
    else (if s.Waits(queue[0], Pending) then 1 else 0) + AheadIn(s, queue[1..], a)
  }

  /** Live acquirers waiting in front of the live acquirer `a`. */
  function Ahead(s: State, a: nat): nat {
    AheadIn(s, s.live, a)
  }

  /** Fewer waiting entries mean fewer ahead. */
  lemma AheadMonotone(s: State, t: State, queue: seq<nat>, a: nat)
    requires forall x :: x in queue && t.Waits(x, Pending) ==> s.Waits(x, Pending)
    ensures AheadIn(t, queue, a) <= AheadIn(s, queue, a)
  {
    if queue != [] && queue[0] != a {
      forall x | x in queue[1..] && t.Waits(x, Pending) ensures s.Waits(x, Pending) {
        assert x in queue;
      }
      AheadMonotone(s, t, queue[1..], a);
    }
  }

  lemma AheadAppend(s: State, queue: seq<nat>, more: seq<nat>, a: nat)
    requires a in queue
    ensures AheadIn(s, queue + more, a) == AheadIn(s, queue, a)
  {
    if queue[0] != a {
      assert (queue + more)[1..] == queue[1..] + more;
      AheadAppend(s, queue[1..], more, a);
    }
  }

  lemma AheadWithout(s: State, queue: seq<nat>, id: nat, a: nat)
    requires id != a && a in queue && !s.Waits(id, Pending)
    ensures AheadIn(s, Without(queue, id), a) == AheadIn(s, queue, a)
  {
    if queue[0] == id {
    } else if queue[0] != a {
      AheadWithout(s, queue[1..], id, a);
    }
  }

  lemma AheadSkip(s: State, queue: seq<nat>, a: nat)
    requires !s.Waits(a, Cancelled)
    ensures AheadIn(s, Skip(s, queue), a) == AheadIn(s, queue, a)
  {
    if queue != [] && s.Waits(queue[0], Cancelled) {
      AheadSkip(s, queue[1..], a);
    }
  }

  /** release() grants somebody in front of a waiting live acquirer, or the acquirer itself. */
  lemma ReleaseAhead(s: State, a: nat)
    requires Vacant(s) && Release(s).Ok? && a in s.live && s.Waits(a, Pending) && Release(s).value.Waits(a, Pending)
    ensures Ahead(Release(s).value, a) < Ahead(s, a)
  {
    var t := Release(s).value;
    var n := SkipSuffix(s, s.live);
    var q := Skip(s, s.live);
    AheadSkip(s, s.live, a);
    InSkip(s, s.live, a);
    assert q != [];
    assert q[0] != a;
    forall x | x in q[1..] && t.Waits(x, Pending) ensures s.Waits(x, Pending) {}
    AheadMonotone(s, t, q[1..], a);
    assert q[0] == s.live[n] && s.live[n] in s.live && !s.Holder(q[0]);
  }

  lemma InSkip(s: State, queue: seq<nat>, a: nat)
    requires a in queue && !s.Waits(a, Cancelled)
    ensures a in Skip(s, queue)
  {
    if s.Waits(queue[0], Cancelled) {
      InSkip(s, queue[1..], a);
    }
  }

  /** A step never puts anyone in front of a waiting live acquirer; a releasing step removes one. */
  lemma StepAhead(s: State, e: Event, a: nat)
    requires Inv(s) && Enabled(s, e) && Step(s, e).Ok?
    requires s.Waits(a, Pending) && s.tasks[a].live && Step(s, e).value.Waits(a, Pending)
    ensures Ahead(Step(s, e).value, a) + (if Releases(s, e) then 1 else 0) <= Ahead(s, a)
  {
    assert a in s.live;
    if Releases(s, e) {
      var v := Vacated(s, e);
      VacatedIsVacant(s, e);
      VacatedKeeps(s, e, a);
      VacatedAhead(s, e, a);
      hide Vacated, Vacant, Step, Release, Ahead;
      ReleaseAhead(v, a);
    } else {
      QuietAhead(s, e, a);
    }
  }

  lemma VacatedAhead(s: State, e: Event, a: nat)
    requires Inv(s) && Enabled(s, e) && Releases(s, e) && a in s.live && s.Waits(a, Pending)
    ensures Ahead(Vacated(s, e), a) <= Ahead(s, a)
  {
    var v := Vacated(s, e);
    forall x | v.Waits(x, Pending) ensures s.Waits(x, Pending) {
      VacatedKeeps(s, e, x);
    }
    if e.Resume? {
      AheadWithout(s, s.live, e.id, a);
    }
    hide Without;
    AheadMonotone(s, v, v.live, a);
  }

  lemma QuietAhead(s: State, e: Event, a: nat)
    requires Inv(s) && Enabled(s, e) && Step(s, e).Ok? && !Releases(s, e) && a in s.live
    requires s.Waits(a, Pending) && Step(s, e).value.Waits(a, Pending)
    ensures Ahead(Step(s, e).value, a) <= Ahead(s, a)
  {
    var t := Step(s, e).value;
    match e {
      case Call(id, live) =>
        forall x | x in s.live && t.Waits(x, Pending) ensures s.Waits(x, Pending) {}
        AheadMonotone(s, t, s.live, a);
        AheadAppend(t, s.live, [id], a);
      case Cancel(id) =>
        AheadMonotone(s, t, s.live, a);
      case Resume(id) =>
        AheadWithout(s, s.live, id, a);
        hide Without;
        AheadMonotone(s, t, t.live, a);
      case Finish(id) =>
    }
  }

  // ---- Whole runs --------------------------------------------------------------------------

  /** A run of the lane under any interleaving of calls, cancellations, resumptions and releases. */
  ghost predicate Run(states: seq<State>, events: seq<Event>) {
    && |states| == |events| + 1 && states[0] == IDLE
    && forall i {:trigger events[i]} :: 0 <= i < |events| ==>
      Enabled(states[i], events[i]) && Step(states[i], events[i]) == Ok(states[i + 1])
  }

  lemma {:induction false} RunKeepsInv(states: seq<State>, events: seq<Event>, n: nat)
    requires Run(states, events) && n < |states|
    ensures Inv(states[n])
  {
    if n > 0 {
      RunKeepsInv(states, events, n - 1);
      hide Inv, Step;
      StepKeepsInv(states[n - 1], events[n - 1]);
    }
  }

  lemma RunLength(states: seq<State>, events: seq<Event>)
    requires Run(states, events)
    ensures |states| == |events| + 1
  {
  }

  lemma RunStep(states: seq<State>, events: seq<Event>, n: nat)
    requires Run(states, events) && n < |events|
    ensures Inv(states[n]) && Enabled(states[n], events[n]) && Step(states[n], events[n]) == Ok(states[n + 1])
  {
    RunKeepsInv(states, events, n);
  }

  /** While a live acquirer waits, no VOD acquirer gets the lane. */
  lemma LiveBeforeVod(states: seq<State>, events: seq<Event>, n: nat, live: nat, vod: nat)
    requires Run(states, events) && n < |events|
    requires states[n].Waits(live, Pending) && states[n].tasks[live].live
    requires NewlyHolds(states[n], states[n + 1], vod)
    ensures vod in states[n].tasks && states[n].tasks[vod].live
  {
    RunStep(states, events, n);
    hide *;
    GrantIsFair(states[n], events[n], vod, live);
  }

  lemma {:induction false} StaysSettled(states: seq<State>, events: seq<Event>, m: nat, n: nat, x: nat)
    requires Run(states, events) && m <= n < |states| && x in states[m].tasks
    ensures x in states[n].tasks && states[n].tasks[x].live == states[m].tasks[x].live
    ensures !states[m].Waits(x, Pending) ==> !states[n].Waits(x, Pending)
    decreases n - m
  {
    hide *;
    RunLength(states, events);
    if m < n {
      StaysSettled(states, events, m, n - 1, x);
      RunStep(states, events, n - 1);
      ClassIsFixed(states[n - 1], events[n - 1], x);
      if !states[n - 1].Waits(x, Pending) {
        NeverPendingAgain(states[n - 1], events[n - 1], x);
      }
    }
  }

  /** Waiting is never interrupted. */
  lemma WaitsThroughout(states: seq<State>, events: seq<Event>, m: nat, k: nat, n: nat, x: nat)
    requires Run(states, events) && m <= k <= n < |states|
    requires states[m].Waits(x, Pending) && states[n].Waits(x, Pending)
    ensures states[k].Waits(x, Pending) && x in states[k].tasks && states[k].tasks[x].live == states[m].tasks[x].live
  {
    assert x in states[m].tasks;
    hide Run, Inv;
    StaysSettled(states, events, m, k, x);
    StaysSettled(states, events, k, n, x);
  }

  /** Both wait in `s`, `a` in front of `b`. */
  ghost predicate WaitInOrder(s: State, live: bool, a: nat, b: nat) {
    s.Waits(a, Pending) && s.Waits(b, Pending) && Precedes(s.Queue(live), a, b)
  }

  lemma OrderStep(s: State, e: Event, t: State, live: bool, a: nat, b: nat)
    requires Inv(s) && Enabled(s, e) && Step(s, e) == Ok(t)
    requires WaitInOrder(s, live, a, b) && t.Waits(a, Pending) && t.Waits(b, Pending)
    ensures WaitInOrder(t, live, a, b)
  {
    hide Inv, Step, Precedes, Enabled;
    StepPrecedes(s, e, live, a, b);
  }

  lemma InOrderWaits(s: State, live: bool, a: nat, b: nat)
    requires WaitInOrder(s, live, a, b)
    ensures s.Waits(a, Pending) && s.Waits(b, Pending) && Precedes(s.Queue(live), a, b)
  {
  }

  lemma {:induction false} StaysInOrder(states: seq<State>, events: seq<Event>, m: nat, n: nat, live: bool, a: nat,
                                        b: nat)
    requires Run(states, events) && m <= n < |states|
    requires WaitInOrder(states[m], live, a, b) && states[n].Waits(a, Pending) && states[n].Waits(b, Pending)
    ensures WaitInOrder(states[n], live, a, b)
    decreases n - m
  {
    hide *;
    RunLength(states, events);
    if m < n {
      InOrderWaits(states[m], live, a, b);
      WaitsThroughout(states, events, m, n - 1, n, a);
      WaitsThroughout(states, events, m, n - 1, n, b);
      RunStep(states, events, n - 1);
      StaysInOrder(states, events, m, n - 1, live, a, b);
      OrderStep(states[n - 1], events[n - 1], states[n], live, a, b);
    }
  }

  /** Grants follow arrival order inside a class: when `late` gets the lane, an acquirer of its
      class that called earlier no longer waits (it was granted before, or was cancelled). */
  lemma GrantsFollowArrival(states: seq<State>, events: seq<Event>, i: nat, j: nat, n: nat, early: nat, late: nat,
                            live: bool)
    requires Run(states, events) && i < j <= n < |events|
    requires events[i] == Call(early, live) && events[j] == Call(late, live)
    requires NewlyHolds(states[n], states[n + 1], late)
    ensures !states[n].Waits(early, Pending)
  {
    hide *;
    RunLength(states, events);
    if states[n].Waits(early, Pending) {
      RunStep(states, events, n);
      GrantIsFair(states[n], events[n], late, early);
      CalledWaits(states, events, i, n, early, live);
      if j < n {
        CalledWaits(states, events, j, n, late, live);
        ArrivalOrder(states, events, i, j, n, early, late, live);
        StaysInOrder(states, events, j + 1, n, live, early, late);
        InOrderWaits(states[n], live, early, late);
      } else {
        NotKnownBeforeCall(states, events, n);
      }
    }
  }

  lemma NotKnownBeforeCall(states: seq<State>, events: seq<Event>, n: nat)
    requires Run(states, events) && n < |events| && events[n].Call?
    ensures events[n].id !in states[n].tasks
  {
  }

  /** An acquirer that waits at some point has waited ever since its call. */
  lemma CalledWaits(states: seq<State>, events: seq<Event>, i: nat, n: nat, id: nat, live: bool)
    requires Run(states, events) && i < n < |states| && events[i] == Call(id, live) && states[n].Waits(id, Pending)
    ensures states[i].held && states[i + 1] == CallStep(states[i], id, live)
    ensures states[i + 1].Waits(id, Pending) && states[n].tasks[id].live == live
  {
    RunStep(states, events, i);
    CallKeepsInv(states[i], id, live);
    hide Inv;
    StaysSettled(states, events, i + 1, n, id);
  }

  lemma ArrivalOrder(states: seq<State>, events: seq<Event>, i: nat, j: nat, n: nat, early: nat, late: nat, live: bool)
    requires Run(states, events) && i < j < n < |events|
    requires events[i] == Call(early, live) && events[j] == Call(late, live)
    requires states[n].Waits(early, Pending) && states[n].Waits(late, Pending)
    ensures WaitInOrder(states[j + 1], live, early, late)
  {
    CalledWaits(states, events, i, n, early, live);
    CalledWaits(states, events, j, n, late, live);
    WaitsThroughout(states, events, i + 1, j, n, early);
    WaitsThroughout(states, events, i + 1, j + 1, n, early);
    StaysSettled(states, events, j, n, early);
    RunStep(states, events, j);
    hide Run, Step, Enabled;
    JoinsBehind(states[j], early, late, live);
  }

  /** A caller that has to wait joins its queue behind everyone waiting there. */
  lemma JoinsBehind(s: State, early: nat, late: nat, live: bool)
    requires Inv(s) && s.held && late !in s.tasks && s.Waits(early, Pending) && s.tasks[early].live == live
    ensures WaitInOrder(CallStep(s, late, live), live, early, late)
  {
    var queue := s.Queue(live);
    assert early in queue;
    var x :| 0 <= x < |queue| && queue[x] == early;
    var after := CallStep(s, late, live).Queue(live);
    assert after[x] == early && after[|queue|] == late;
  }

  /** Releases among the steps m, m+1, .., n-1. */
  ghost function ReleasesBetween(states: seq<State>, events: seq<Event>, m: nat, n: nat): nat
    requires Run(states, events) && m <= n < |states|
    decreases n - m
  {
    if m == n then 0
    else (ReleasesBetween(states, events, m, n - 1) + (if Releases(states[n - 1], events[n - 1]) then 1 else 0))
  }

  lemma ReleasesSplit(states: seq<State>, events: seq<Event>, m: nat, n: nat)
    requires Run(states, events) && m <= n < |states| == |events| + 1
    ensures ReleasesBetween(states, events, m, n) ==
            if m == n then 0
            else ReleasesBetween(states, events, m, n - 1) + (if Releases(states[n - 1], events[n - 1]) then 1 else 0)
  {
    hide Releases, Enabled, Step;
  }

  /** A live acquirer with k live acquirers waiting in front of it is granted by the (k+1)-th
      release at the latest, unless it is cancelled. */
  lemma {:induction false} LiveWaitIsBounded(states: seq<State>, events: seq<Event>, m: nat, n: nat, a: nat)
    requires Run(states, events) && m <= n < |states|
    requires states[m].Waits(a, Pending) && states[m].tasks[a].live && states[n].Waits(a, Pending)
    ensures states[n].tasks[a].live
    ensures ReleasesBetween(states, events, m, n) + Ahead(states[n], a) <= Ahead(states[m], a)
    decreases n - m
  {
    hide *;
    RunLength(states, events);
    ReleasesSplit(states, events, m, n);
    if m < n {
      WaitsThroughout(states, events, m, n - 1, n, a);
      LiveWaitIsBounded(states, events, m, n - 1, a);
      RunStep(states, events, n - 1);
      ClassIsFixed(states[n - 1], events[n - 1], a);
      StepAhead(states[n - 1], events[n - 1], a);
    }
  }

  ghost predicate TakenOver(s: State, t: State) {
    exists h :: NewlyHolds(s, t, h)
  }

  /** The acquirer will not own the lane: it is gone, its future is cancelled, or its cancellation is due. */
  predicate Doomed(s: State, id: nat) {
    id in s.tasks
    && (s.tasks[id].Gone?
        || (s.tasks[id].Waiting? && s.tasks[id].future == Cancelled)
        || (s.tasks[id].Waiting? && s.tasks[id].future == Granted && s.tasks[id].mustCancel))
  }

  lemma CancelDooms(s: State, id: nat)
    requires Enabled(s, Cancel(id))
    ensures Doomed(CancelStep(s, id), id)
  {
  }

  lemma StaysDoomed(s: State, e: Event, id: nat)
    requires Inv(s) && Enabled(s, e) && Step(s, e).Ok? && Doomed(s, id)
    ensures Doomed(Step(s, e).value, id)
  {
    hide Inv, Without, Skip;
  }

  lemma {:induction false} DoomedForGood(states: seq<State>, events: seq<Event>, m: nat, n: nat, id: nat)
    requires Run(states, events) && m <= n < |states| && Doomed(states[m], id)
    ensures Doomed(states[n], id)
    decreases n - m
  {
    hide *;
    RunLength(states, events);
    if m < n {
      DoomedForGood(states, events, m, n - 1, id);
      RunStep(states, events, n - 1);
      StaysDoomed(states[n - 1], events[n - 1], id);
    }
  }

  /** A cancelled acquirer never owns the lane afterwards, even if it had been granted it. */
  lemma CancelledNeverOwns(states: seq<State>, events: seq<Event>, c: nat, n: nat, id: nat)
    requires Run(states, events) && c < n < |states| && events[c] == Cancel(id)
    ensures id in states[n].tasks && !states[n].tasks[id].Owner?
  {
    RunStep(states, events, c);
    CancelDooms(states[c], id);
    DoomedForGood(states, events, c + 1, n, id);
    assert Doomed(states[n], id);
    hide Run;
  }

  /** No cancellation has reached the acquirer while it waits. */
  predicate Clear(s: State, id: nat) {
    id !in s.tasks || s.tasks[id].Owner? || s.tasks[id].Gone?
    || (s.tasks[id].future != Cancelled && !s.tasks[id].mustCancel)
  }

  lemma StaysClear(s: State, e: Event, id: nat)
    requires Inv(s) && Enabled(s, e) && Step(s, e).Ok? && Clear(s, id) && e != Cancel(id)
    ensures Clear(Step(s, e).value, id)
  {
    hide Inv, Without, Skip;
  }

  lemma {:induction false} ClearUntilCancelled(states: seq<State>, events: seq<Event>, n: nat, id: nat)
    requires Run(states, events) && n < |states| && forall i :: 0 <= i < n ==> events[i] != Cancel(id)
    ensures Clear(states[n], id)
  {
    RunLength(states, events);
    if n > 0 {
      hide *;
      ClearUntilCancelled(states, events, n - 1, id);
      RunStep(states, events, n - 1);
      StaysClear(states[n - 1], events[n - 1], id);
    }
  }

  /** An acquirer that was granted the lane and never cancelled owns it when it resumes; while waiting without
      a cancellation it can only resume by a grant. */
  lemma GranteeOwns(states: seq<State>, events: seq<Event>, n: nat, id: nat)
    requires Run(states, events) && n < |events| && events[n] == Resume(id)
    requires forall i :: 0 <= i < n ==> events[i] != Cancel(id)
    ensures states[n].Waits(id, Granted) && id in states[n + 1].tasks && states[n + 1].tasks[id].Owner?
  {
    ClearUntilCancelled(states, events, n, id);
    RunStep(states, events, n);
    hide Run, Inv, Without;
  }

  /** Over a run: an acquirer cancelled after it was granted the lane leaves without it when it resumes, and
      hands it to a waiter, if there is one. */
  lemma CancelledGranteeHandsOn(states: seq<State>, events: seq<Event>, c: nat, n: nat, id: nat)
    requires Run(states, events) && c < n < |events| && events[c] == Cancel(id) && events[n] == Resume(id)
    requires states[n].Waits(id, Granted)
    ensures states[n + 1].tasks.Keys == states[n].tasks.Keys && states[n + 1].tasks[id].Gone?
    ensures (exists x :: states[n].Waits(x, Pending)) ==> TakenOver(states[n], states[n + 1])
    ensures (forall x :: !states[n].Waits(x, Pending)) ==> !states[n + 1].held
  {
    hide *;
    RunLength(states, events);
    RunStep(states, events, c);
    CancelDoomsStep(states[c], id, states[c + 1]);
    DoomedForGood(states, events, c + 1, n, id);
    DoomedGrant(states[n], id);
    RunStep(states, events, n);
    CancelledGranteePassesOn(states[n], id);
    LeavesFreeLane(states[n], id);
  }

  lemma CancelDoomsStep(s: State, id: nat, t: State)
    requires Enabled(s, Cancel(id)) && Step(s, Cancel(id)) == Ok(t)
    ensures Doomed(t, id)
  {
    CancelDooms(s, id);
  }

  lemma DoomedGrant(s: State, id: nat)
    requires Doomed(s, id) && s.Waits(id, Granted)
    ensures s.tasks[id].mustCancel
  {
  }

  lemma LeavesFreeLane(s: State, id: nat)
    requires Inv(s) && s.Waits(id, Granted) && s.tasks[id].mustCancel && Step(s, Resume(id)).Ok?
    ensures Step(s, Resume(id)).value.tasks.Keys == s.tasks.Keys && Step(s, Resume(id)).value.tasks[id].Gone?
    ensures (forall x :: !s.Waits(x, Pending)) ==> !Step(s, Resume(id)).value.held
  {
    var t := Step(s, Resume(id)).value;
    StepKeepsInv(s, Resume(id));
    Leaves(s, id);
    hide Inv, Step;
    if t.held {
      NotHolderAfter(s, id);
      HandedOn(s, t, id);
      var h :| NewlyHolds(s, t, h);
      NewHolderWaited(s, id, h);
    }
  }

  lemma Leaves(s: State, id: nat)
    requires s.Waits(id, Granted) && s.tasks[id].mustCancel && Step(s, Resume(id)).Ok?
    ensures Step(s, Resume(id)).value.tasks.Keys == s.tasks.Keys && Step(s, Resume(id)).value.tasks[id].Gone?
  {
    hide Without, Skip;
  }

  lemma NewHolderWaited(s: State, id: nat, h: nat)
    requires s.Waits(id, Granted) && s.tasks[id].mustCancel && Step(s, Resume(id)).Ok?
    requires NewlyHolds(s, Step(s, Resume(id)).value, h)
    ensures s.Waits(h, Pending)
  {
    hide Without, Skip;
  }

  /** A granted acquirer whose cancellation is due when it resumes hands the lane on. */
  lemma CancelledGranteePassesOn(s: State, id: nat)
    requires Inv(s) && s.Waits(id, Granted) && s.tasks[id].mustCancel
    ensures Step(s, Resume(id)).Ok? && !Step(s, Resume(id)).value.Holder(id)
    ensures (exists x :: s.Waits(x, Pending)) ==> TakenOver(s, Step(s, Resume(id)).value)
  {
    StepKeepsInv(s, Resume(id));
    NotHolderAfter(s, id);
    if x :| s.Waits(x, Pending) {
      StillWaitsOrHolds(s, id, x);
      HandedOn(s, Step(s, Resume(id)).value, id);
    }
  }

  lemma HandedOn(s: State, t: State, id: nat)
    requires Inv(s) && Inv(t) && t.held && s.Holder(id) && !t.Holder(id)
    ensures TakenOver(s, t)
  {
    hide QueueOk, Queued, NoLostWakeup;
    var h :| t.Holder(h);
    assert NewlyHolds(s, t, h);
  }

  lemma StillWaitsOrHolds(s: State, id: nat, x: nat)
    requires Inv(s) && s.Waits(id, Granted) && s.tasks[id].mustCancel && s.Waits(x, Pending)
    requires Step(s, Resume(id)).Ok? && Inv(Step(s, Resume(id)).value)
    ensures Step(s, Resume(id)).value.held
  {
    hide QueueOk, Queued, Without, Skip;
    var t := Step(s, Resume(id)).value;
    assert t.Waits(x, Pending) || t.Waits(x, Granted);
    assert t.Waits(x, Granted) ==> t.Holder(x);
  }

  lemma NotHolderAfter(s: State, id: nat)
    requires Inv(s) && s.Waits(id, Granted) && s.tasks[id].mustCancel && Step(s, Resume(id)).Ok?
    ensures !Step(s, Resume(id)).value.Holder(id)
  {
    hide Inv, QueueOk, Queued, Without, Skip;
  }

  // ---- The object ----------------------------------------------------------------------------

  /** The lock itself. `tasks` is the event loop's record of every acquirer and its future. */
  class PriorityLane {
    var held: bool
    var live: seq<nat>
    var vod: seq<nat>
    var tasks: map<nat, Task>

    function Now(): State
      reads this
    {
      State(held, live, vod, tasks)
    }

    constructor ()
      ensures Now() == IDLE && Inv(Now())
    {
      held, live, vod, tasks := false, [], [], map[];
    }

    method AnyWaiting(queue: seq<nat>) returns (found: bool)
      ensures found <==> AnyUncancelled(Now(), queue)
    {
      found := false;
      for i := 0 to |queue|
        invariant !found && forall j :: 0 <= j < i ==> Now().Waits(queue[j], Cancelled)
      {
        if !Now().Waits(queue[i], Cancelled) {
          return true;
        }
      }
    }

    method IsBlocked(forLive: bool) returns (blocked: bool)
      ensures blocked <==> Blocked(Now(), forLive)
    {
      blocked := AnyWaiting(live);
      if !blocked && !forLive {
        blocked := AnyWaiting(vod);
      }
    }

    /** acquire() up to its first await: takes a free lane or joins its queue. */
    method Acquire(id: nat, forLive: bool) returns (acquired: bool)
      requires id !in tasks
      modifies this
      ensures Now() == CallStep(old(Now()), id, forLive)
      ensures acquired <==> tasks[id].Owner?
    {
      if !held {
        var blocked := IsBlocked(forLive);
        if !blocked {
          held := true;
          tasks := tasks[id := Owner(forLive)];
          return true;
        }
      }
      tasks := tasks[id := Waiting(forLive, Pending, false)];
      if forLive {
        live := live + [id];
      } else {
        vod := vod + [id];
      }
      acquired := false;
    }

    method CancelWaiter(id: nat)
      requires id in tasks && tasks[id].Waiting?
      modifies this
      ensures Now() == CancelStep(old(Now()), id)
    {
      if tasks[id].future == Pending {
        tasks := tasks[id := tasks[id].(future := Cancelled)];
      } else if tasks[id].future == Granted {
        tasks := tasks[id := tasks[id].(mustCancel := true)];
      }
    }

    /** Pops cancelled futures and returns the first other one, live queue first. */
    method NextWaiter() returns (waiter: Option<nat>)
      modifies this`live, this`vod
      ensures live == Skip(old(Now()), old(live))
      ensures live != [] ==> vod == old(vod) && waiter == Some(live[0])
      ensures live == [] ==> vod == Skip(old(Now()), old(vod)) && waiter == if vod != [] then Some(vod[0]) else None
    {
      ghost var start := Now();
      while live != []
        invariant Skip(start, live) == Skip(start, old(live)) && vod == old(vod) && tasks == old(tasks)
        decreases |live|
      {
        if !Now().Waits(live[0], Cancelled) {
          return Some(live[0]);
        }
        live := live[1..];
      }
      while vod != []
        invariant live == [] == Skip(start, old(live)) && Skip(start, vod) == Skip(start, old(vod))
                  && tasks == old(tasks)
        decreases |vod|
      {
        if !Now().Waits(vod[0], Cancelled) {
          return Some(vod[0]);
        }
        vod := vod[1..];
      }
      waiter := None;
    }

    /** release(): hands the lane to the next waiter or frees it; false when it raises. */
    method ReleaseLane() returns (ok: bool)
      modifies this
      ensures ok <==> Release(old(Now())).Ok?
      ensures ok ==> Now() == Release(old(Now())).value
    {
      if !held {
        return false;
      }
      ghost var start := Now();
      var waiter := NextWaiter();
      SkipSame(start, start.(live := live), start.vod);
      match waiter {
        case None =>
          held := false;
        case Some(id) =>
          if !Now().Waits(id, Pending) {
            return false;
          }
          tasks := tasks[id := tasks[id].(future := Granted)];
      }
      ok := true;
    }

    /** acquire() after its await: true when the caller now owns the lane, false when it was
        cancelled; a cancelled grantee releases. `raised` when that release raises. */
    method Wake(id: nat) returns (acquired: bool, raised: bool)
      requires Now().Waits(id, Granted) || Now().Waits(id, Cancelled)
      modifies this
      ensures raised <==> ResumeStep(old(Now()), id).Err?
      ensures !raised ==> Now() == ResumeStep(old(Now()), id).value && (acquired <==> tasks[id].Owner?)
    {
      ghost var start := Now();
      var task := tasks[id];
      live, vod := Without(live, id), Without(vod, id);
      raised := false;
      if task.future == Granted && !task.mustCancel {
        tasks := tasks[id := Owner(task.live)];
        return true, false;
      }
      tasks := tasks[id := Gone(task.live)];
      acquired := false;
      if task.future == Granted && held {
        var ok := ReleaseLane();
        raised := !ok;
        if ok {
          ReleaseSparesTheGone(Leave(start, id, Gone(task.live)), id);
        }
      }
    }
  }

  lemma ReleaseSparesTheGone(s: State, id: nat)
    requires id in s.tasks && s.tasks[id].Gone? && Release(s).Ok?
    ensures id in Release(s).value.tasks && Release(s).value.tasks[id] == s.tasks[id]
  {
    hide Skip;
  }
}
