/** The serial task queue (executor/queue.go, executor/types.go): enqueuers, one worker whose executors may
    panic, and readers that take snapshots. One action is one step that other goroutines can observe: a
    critical section, a channel operation, or an atomic store. */
module TaskQueue {

  const CAPACITY := 100

  type Id = string

  datatype Status = Waiting | Running | Success | Failed

  datatype Result = Result(success: bool, message: string)

  datatype Option<T> = None | Some(value: T)

  /** `sent` are the values put into the result channel so far. */
  datatype Task = Task(status: Status, result: Option<Result>, sent: seq<Result>, closed: bool)

  /** Where the worker loop stands with its current task. */
  datatype Worker =
    | Idle
    | Taken(id: Id)
    | Flagged(id: Id)
    | Executing(id: Id)
    | Returned(id: Id, outcome: Result, panicked: bool)
    | Published(id: Id, outcome: Result)
    | Delivered(id: Id)
    | Closed(id: Id)
    | Retired(id: Id)

  /** `channel` is the queue's buffer, `pending` the tasks registered but not sent yet; `sentOrder` and
      `startOrder` record history. */
  datatype State = State(channel: seq<Id>, pending: set<Id>, tasks: map<Id, Task>, taskCount: int, running: bool,
                         worker: Worker, sentOrder: seq<Id>, startOrder: seq<Id>)

  datatype Action =
    | Register(id: Id)          // first half of Enqueue
    | Send(id: Id)              // second half of Enqueue
    | Take                      // the worker receives
    | RaiseFlag
    | Begin                     // status Running
    | Return(outcome: Result)   // the executor returns …
    | Panic(value: string)      // … or panics and the deferred function recovers
    | Publish                   // status and result, in one critical section
    | Deliver                   // result into the task's channel
    | CloseChannel
    | Retire                    // taskCount--
    | LowerFlag

  const INITIAL := State([], {}, map[], 0, false, Idle, [], [])

  function Terminal(s: Status): bool {
    s.Success? || s.Failed?
  }

  predicate Enabled(s: State, a: Action) {
    match a
    case Register(id) => id !in s.tasks
    case Send(id) => id in s.pending && |s.channel| < CAPACITY
    case Take => s.worker.Idle? && s.channel != []
    case RaiseFlag => s.worker.Taken?
    case Begin => s.worker.Flagged? && s.worker.id in s.tasks
    case Return(_) => s.worker.Executing?
    case Panic(_) => s.worker.Executing?
    case Publish => s.worker.Returned? && s.worker.id in s.tasks
    case Deliver => s.worker.Published? && s.worker.id in s.tasks && |s.tasks[s.worker.id].sent| < 1
    case CloseChannel => s.worker.Delivered? && s.worker.id in s.tasks
    case Retire => s.worker.Closed?
    case LowerFlag => s.worker.Retired?
  }

  function Do(s: State, a: Action): State
    requires Enabled(s, a)
  {
    match a
    case Register(id) =>
      s.(taskCount := s.taskCount + 1, tasks := s.tasks[id := Task(Waiting, None, [], false)],
          pending := s.pending + {id})
    case Send(id) =>
      s.(pending := s.pending - {id}, channel := s.channel + [id], sentOrder := s.sentOrder + [id])
    case Take =>
      s.(channel := s.channel[1..], worker := Taken(s.channel[0]), startOrder := s.startOrder + [s.channel[0]])
    case RaiseFlag => s.(running := true, worker := Flagged(s.worker.id))
    case Begin =>
      var id := s.worker.id;
      s.(tasks := s.tasks[id := s.tasks[id].(status := Running)], worker := Executing(id))
    case Return(outcome) => s.(worker := Returned(s.worker.id, outcome, false))
    case Panic(value) => s.(worker := Returned(s.worker.id, Result(false, "task execution panic: " + value), true))
    case Publish =>
      var id, r := s.worker.id, s.worker.outcome;
      var status := if s.worker.panicked then Failed else if r.success then Success else Failed;
      s.(tasks := s.tasks[id := s.tasks[id].(status := status, result := Some(r))], worker := Published(id, r))
    case Deliver =>
      var id := s.worker.id;
      s.(tasks := s.tasks[id := s.tasks[id].(sent := s.tasks[id].sent + [s.worker.outcome])], worker := Delivered(id))
    case CloseChannel =>
      var id := s.worker.id;
      s.(tasks := s.tasks[id := s.tasks[id].(closed := true)], worker := Closed(id))
    case Retire => s.(taskCount := s.taskCount - 1, worker := Retired(s.worker.id))
    case LowerFlag => s.(running := false, worker := Idle)
  }

  /** Any interleaving: every action is enabled when it happens. */
  predicate IsRun(s: State, actions: seq<Action>)
    decreases |actions|
  {
    actions == [] || (Enabled(s, actions[0]) && IsRun(Do(s, actions[0]), actions[1..]))
  }

  function After(s: State, actions: seq<Action>): State
    requires IsRun(s, actions)
    decreases |actions|
  {
    if actions == [] then s else After(Do(s, actions[0]), actions[1..])
  }

  // ---------- The invariant ----------

  function Current(w: Worker): set<Id> {
    if w.Idle? then {} else {w.id}
  }

  function Members(ids: seq<Id>): set<Id> {
    set id | id in ids
  }

  /** Tasks registered and not yet retired. */
  function Unretired(s: State): set<Id> {
    s.pending + Members(s.channel) + (if s.worker.Retired? then {} else Current(s.worker))
  }

  predicate Fresh(t: Task) {
    t == Task(Waiting, None, [], false)
  }

  /** Published: the status says whether the result is a success. */
  predicate Settled(t: Task) {
    Terminal(t.status) && t.result.Some? && (t.status.Success? <==> t.result.value.success)
  }

  predicate Finished(t: Task) {
    Settled(t) && t.sent == [t.result.value] && t.closed
  }

  /** The worker's current task agrees with where the worker stands. */
  predicate CurrentAgrees(w: Worker, t: Task) {
    match w
    case Idle => true
    case Taken(_) => Fresh(t)
    case Flagged(_) => Fresh(t)
    case Executing(_) => t == Task(Running, None, [], false)
    case Returned(_, outcome, panicked) => t == Task(Running, None, [], false) && (panicked ==> !outcome.success)
    case Published(_, outcome) => Settled(t) && t.result == Some(outcome) && t.sent == [] && !t.closed
    case Delivered(_) => Settled(t) && t.sent == [t.result.value] && !t.closed
    case Closed(_) => Finished(t)
    case Retired(_) => Finished(t)
  }

  predicate Distinct(ids: seq<Id>) {
    forall i, j :: 0 <= i < j < |ids| ==> ids[i] != ids[j]
  }

  /** Each task is in one place only: pending, in the channel, with the worker, or done. */
  ghost predicate Placed(s: State) {
    && |s.channel| <= CAPACITY && Distinct(s.channel)
    && (forall id :: id in s.pending ==> id in s.tasks && id !in s.channel && id !in Current(s.worker))
    && (forall id :: id in s.channel ==> id in s.tasks && id !in Current(s.worker))
    && (!s.worker.Idle? ==> s.worker.id in s.tasks)
    && s.sentOrder == s.startOrder + s.channel
  }

  /** Each task looks as its place demands. */
  ghost predicate Consistent(s: State) {
    forall id :: id in s.tasks ==>
      if id in s.pending || id in s.channel then Fresh(s.tasks[id])
      else if id in Current(s.worker) then CurrentAgrees(s.worker, s.tasks[id])
      else Finished(s.tasks[id])
  }

  ghost predicate Counted(s: State) {
    && s.taskCount == |s.pending| + |s.channel| + (if s.worker.Idle? || s.worker.Retired? then 0 else 1)
    && s.running == !(s.worker.Idle? || s.worker.Taken?)
  }

  ghost predicate Inv(s: State) {
    Placed(s) && Consistent(s) && Counted(s)
  }

  lemma PlacedStep(s: State, a: Action)
    requires Placed(s) && Enabled(s, a)
    ensures Placed(Do(s, a))
  {
    if a.Take? {
      TakePlaced(s);
    } else if a.Send? {
      SendPlaced(s, a.id);
    }
  }

  lemma SendPlaced(s: State, id: Id)
    requires Placed(s) && Enabled(s, Send(id))
    ensures Placed(Do(s, Send(id)))
  {
    var s' := Do(s, Send(id));
    assert s'.sentOrder == s'.startOrder + s'.channel;
    assert forall x :: x in s'.channel <==> x in s.channel || x == id;
  }

  lemma TakePlaced(s: State)
    requires Placed(s) && Enabled(s, Take)
    ensures Placed(Do(s, Take))
  {
    var s' := Do(s, Take);
    TailIsDistinct(s.channel);
    assert s'.sentOrder == s'.startOrder + s'.channel;
  }

  /** The head of a channel without repetitions is not in its tail. */
  lemma TailIsDistinct(channel: seq<Id>)
    requires channel != [] && Distinct(channel)
    ensures Distinct(channel[1..]) && channel[0] in channel && channel[0] !in channel[1..]
    ensures forall id :: id in channel[1..] ==> id in channel
  {
  }

  lemma ConsistentStep(s: State, a: Action)
    requires Placed(s) && Consistent(s) && Enabled(s, a)
    ensures Consistent(Do(s, a))
  {
    hide Placed, Consistent, Do, Enabled;
    if a.Register? || a.Send? || a.Take? {
      ConsistentEntry(s, a);
    } else if a.Publish? || a.Deliver? || a.CloseChannel? {
      ConsistentResult(s, a);
    } else {
      ConsistentWorker(s, a);
    }
  }

  lemma ConsistentEntry(s: State, a: Action)
    requires Placed(s) && Consistent(s) && Enabled(s, a) && (a.Register? || a.Send? || a.Take?)
    ensures Consistent(Do(s, a))
  {
    var s' := Do(s, a);
    if a.Take? {
      assert s.channel == [s.channel[0]] + s'.channel;
      assert s.channel[0] in s.channel;
      assert forall id :: id in s.channel <==> id in s'.channel || id == s.channel[0];
    } else if a.Send? {
      assert forall id :: id in s'.channel <==> id in s.channel || id == a.id;
    }
  }

  lemma ConsistentResult(s: State, a: Action)
    requires Placed(s) && Consistent(s) && Enabled(s, a) && (a.Publish? || a.Deliver? || a.CloseChannel?)
    ensures Consistent(Do(s, a))
  {
  }

  lemma ConsistentWorker(s: State, a: Action)
    requires Placed(s) && Consistent(s) && Enabled(s, a)
    requires a.RaiseFlag? || a.Begin? || a.Return? || a.Panic? || a.Retire? || a.LowerFlag?
    ensures Consistent(Do(s, a))
  {
  }

  /** Every action keeps the invariant. */
  lemma InvStep(s: State, a: Action)
    requires Inv(s) && Enabled(s, a)
    ensures Inv(Do(s, a))
  {
    PlacedStep(s, a);
    ConsistentStep(s, a);
  }

  lemma {:induction false} InvRun(s: State, actions: seq<Action>)
    requires Inv(s) && IsRun(s, actions)
    ensures Inv(After(s, actions))
    decreases |actions|
  {
    if actions != [] {
      InvStep(s, actions[0]);
      InvRun(Do(s, actions[0]), actions[1..]);
    }
  }

  // ---------- Safety over all runs ----------

  /** GetTask: a copy of status and result. */
  datatype Snapshot = Snapshot(status: Status, result: Option<Result>)

  function GetTask(s: State, id: Id): Option<Snapshot> {
    if id in s.tasks then Some(Snapshot(s.tasks[id].status, s.tasks[id].result)) else None
  }

  lemma {:induction false} MembersCount(ids: seq<Id>)
    requires Distinct(ids)
    ensures |Members(ids)| == |ids|
  {
    if ids != [] {
      var rest := ids[1..];
      MembersCount(rest);
      assert ids == [ids[0]] + rest;
      assert ids[0] !in rest;
      assert Members(ids) == {ids[0]} + Members(rest);
    }
  }

  /** The count is that of the unretired tasks, in every state any interleaving can reach. */
  lemma CountIsUnretired(actions: seq<Action>)
    requires IsRun(INITIAL, actions)
    ensures After(INITIAL, actions).taskCount == |Unretired(After(INITIAL, actions))|
  {
    InvRun(INITIAL, actions);
    var s := After(INITIAL, actions);
    MembersCount(s.channel);
    var busy := if s.worker.Retired? then {} else Current(s.worker);
    var waiting := s.pending + Members(s.channel);
    assert s.pending !! Members(s.channel);
    assert |waiting| == |s.pending| + |s.channel|;
    assert waiting !! busy;
    assert Unretired(s) == waiting + busy;
  }

  ghost predicate TaskSound(s: State, id: Id)
    requires id in s.tasks
  {
    var t := s.tasks[id];
    && |t.sent| <= 1 && (t.closed ==> t.result.Some? && t.sent == [t.result.value])
    && (t.result.Some? <==> Terminal(t.status))
    && (t.result.Some? ==> (t.status.Success? <==> t.result.value.success))
    && (t.status.Running? ==> s.running && id in Current(s.worker))
  }

  lemma InvIsSound(s: State, id: Id)
    requires Inv(s) && id in s.tasks
    ensures TaskSound(s, id)
  {
  }

  predicate IsRunning(s: State, id: Id) {
    id in s.tasks && s.tasks[id].status.Running?
  }

  /** In every reachable state at most one task runs; a result channel holds at most one value, and exactly
      the task's result once closed; a snapshot carries a result exactly when its status is terminal, and
      the status says whether that result is a success; the running flag is up from the worker's first step to
      its last; and at most a hundred tasks wait in the channel. */
  lemma ReachableStatesAreSound(actions: seq<Action>)
    requires IsRun(INITIAL, actions)
    ensures var s := After(INITIAL, actions);
            && (forall id :: id in s.tasks ==> TaskSound(s, id))
            && (forall id, other :: IsRunning(s, id) && IsRunning(s, other) ==> id == other)
            && (forall id :: GetTask(s, id).Some? ==>
                  (GetTask(s, id).value.result.Some? <==> Terminal(GetTask(s, id).value.status)))
            && (s.running <==> !s.worker.Idle? && !s.worker.Taken?) && |s.channel| <= 100
  {
    hide Inv, IsRun, After;
    InvInitial();
    InvRun(INITIAL, actions);
    var s := After(INITIAL, actions);
    forall id | id in s.tasks ensures TaskSound(s, id) { InvIsSound(s, id); }
    InvIsBusy(s);
  }

  lemma InvIsBusy(s: State)
    requires Inv(s)
    ensures (s.running <==> !s.worker.Idle? && !s.worker.Taken?) && |s.channel| <= 100
  {
  }

  lemma InvInitial()
    ensures Inv(INITIAL)
  {
  }

  /** Tasks start in the order in which they entered the channel. */
  lemma StartOrderIsChannelOrder(actions: seq<Action>)
    requires IsRun(INITIAL, actions)
    ensures After(INITIAL, actions).startOrder <= After(INITIAL, actions).sentOrder
  {
    InvRun(INITIAL, actions);
  }

  /** Delivering the result never blocks the worker: the channel of capacity one is empty. */
  lemma DeliveryNeverBlocks(actions: seq<Action>)
    requires IsRun(INITIAL, actions) && After(INITIAL, actions).worker.Published?
    ensures Enabled(After(INITIAL, actions), Deliver)
  {
    InvRun(INITIAL, actions);
  }

  function Rank(s: Status): nat {
    match s
    case Waiting => 0
    case Running => 1
    case Success => 2
    case Failed => 2
  }

  /** `later` is the same task further on: its status has not gone back, and once terminal neither status
      nor result changes again. */
  ghost predicate Onward(t: Task, later: Task) {
    && Rank(t.status) <= Rank(later.status)
    && (Terminal(t.status) ==> later.status == t.status && later.result == t.result)
    && t.sent <= later.sent && (t.closed ==> later.closed && later.sent == t.sent)
  }

  lemma StepMovesForward(s: State, a: Action, id: Id)
    requires Inv(s) && Enabled(s, a) && id in s.tasks
    ensures id in Do(s, a).tasks && Onward(s.tasks[id], Do(s, a).tasks[id])
  {
  }

  /** Over any run from a reachable state, tasks are never forgotten and only move forward. */
  lemma {:induction false} StatusesOnlyMoveForward(s: State, actions: seq<Action>, id: Id)
    requires Inv(s) && IsRun(s, actions) && id in s.tasks
    ensures id in After(s, actions).tasks && Onward(s.tasks[id], After(s, actions).tasks[id])
    decreases |actions|
  {
    if actions != [] {
      var n := Do(s, actions[0]);
      InvStep(s, actions[0]);
      StepMovesForward(s, actions[0], id);
      StatusesOnlyMoveForward(n, actions[1..], id);
    }
  }

  // ---------- Whose result it is ----------

  lemma {:induction false} RunSplit(s: State, actions: seq<Action>, k: nat)
    requires k <= |actions| && IsRun(s, actions)
    ensures IsRun(s, actions[..k]) && IsRun(After(s, actions[..k]), actions[k..])
    ensures After(s, actions) == After(After(s, actions[..k]), actions[k..])
    decreases k
  {
    if k == 0 {
      assert actions[k..] == actions;
    } else {
      var rest := actions[1..];
      RunSplit(Do(s, actions[0]), rest, k - 1);
      assert actions[..k][0] == actions[0] && actions[..k][1..] == rest[..k - 1] && rest[k - 1..] == actions[k..];
    }
  }

  lemma OneStep(s: State, actions: seq<Action>, k: nat)
    requires k < |actions| && IsRun(s, actions)
    ensures IsRun(s, actions[..k]) && Enabled(After(s, actions[..k]), actions[k])
    ensures IsRun(s, actions[..k + 1]) && After(s, actions[..k + 1]) == Do(After(s, actions[..k]), actions[k])
  {
    RunSplit(s, actions, k + 1);
    var upTo := actions[..k + 1];
    RunSplit(s, upTo, k);
    assert upTo[..k] == actions[..k] && upTo[k..] == [actions[k]];
    assert upTo[k..][1..] == [];
  }

  /** Action k ends the execution of this task with this result: the executor returns it, or panics. */
  ghost predicate Answers(actions: seq<Action>, k: nat, id: Id, r: Result) {
    && k < |actions| && IsRun(INITIAL, actions[..k]) && After(INITIAL, actions[..k]).worker == Executing(id)
    && (actions[k] == Return(r)
        || (actions[k].Panic? && r == Result(false, "task execution panic: " + actions[k].value)))
  }

  /** The worker holds the result, or has published it. */
  ghost predicate Known(s: State, id: Id, r: Result) {
    || (s.worker.Returned? && s.worker.id == id && s.worker.outcome == r)
    || (id in s.tasks && s.tasks[id].result == Some(r))
  }

  lemma KnownStep(s: State, a: Action, id: Id, r: Result)
    requires Inv(s) && Enabled(s, a)
    ensures Known(s, id, r) ==> Known(Do(s, a), id, r)
    ensures Known(Do(s, a), id, r) && !Known(s, id, r) ==> s.worker == Executing(id) && (a.Return? || a.Panic?)
  {
  }

  lemma AnswerStep(s: State, a: Action, id: Id, r: Result)
    requires Inv(s) && Enabled(s, a) && s.worker == Executing(id) && (a.Return? || a.Panic?)
    ensures Known(Do(s, a), id, r) <==>
            a == Return(r) || (a.Panic? && r == Result(false, "task execution panic: " + a.value))
  {
  }

  /** Every run up to some point keeps the invariant. */
  lemma InvAt(actions: seq<Action>, k: nat)
    requires k <= |actions| && IsRun(INITIAL, actions)
    ensures IsRun(INITIAL, actions[..k]) && Inv(After(INITIAL, actions[..k]))
  {
    RunSplit(INITIAL, actions, k);
    InvInitial();
    InvRun(INITIAL, actions[..k]);
  }

  lemma {:induction false} KnownIffAnswered(actions: seq<Action>, n: nat, id: Id, r: Result)
    requires n <= |actions| && IsRun(INITIAL, actions)
    ensures IsRun(INITIAL, actions[..n])
    ensures Known(After(INITIAL, actions[..n]), id, r) <==> exists k: nat :: k < n && Answers(actions, k, id, r)
    decreases n
  {
    hide Inv, IsRun, After, Do, Enabled, Known;
    InvAt(actions, n);
    if n == 0 {
      NothingKnown(actions, id, r);
    } else {
      var m := n - 1;
      InvAt(actions, m);
      OneStep(INITIAL, actions, m);
      KnownIffAnswered(actions, m, id, r);
      var s := After(INITIAL, actions[..m]);
      KnownStep(s, actions[m], id, r);
      if s.worker == Executing(id) && (actions[m].Return? || actions[m].Panic?) {
        AnswerStep(s, actions[m], id, r);
        assert Known(Do(s, actions[m]), id, r) ==> Answers(actions, m, id, r);
      }
    }
  }

  lemma NothingKnown(actions: seq<Action>, id: Id, r: Result)
    ensures IsRun(INITIAL, actions[..0]) && !Known(After(INITIAL, actions[..0]), id, r)
  {
  }

  /** What a reader sees of a task's end is what its executor did: a snapshot shows a result exactly when an
      execution of that task has ended with it and the worker has published it; the status is success exactly
      for a returned success; and the result channel holds that result or nothing. */
  lemma ResultIsTheExecutors(actions: seq<Action>, id: Id, r: Result)
    requires IsRun(INITIAL, actions)
    ensures var s := After(INITIAL, actions);
            GetTask(s, id).Some? && GetTask(s, id).value.result == Some(r) <==>
            (exists k: nat :: Answers(actions, k, id, r)) && !(s.worker.Returned? && s.worker.id == id)
    ensures var s := After(INITIAL, actions);
            GetTask(s, id).Some? && GetTask(s, id).value.result == Some(r) ==>
              && GetTask(s, id).value.status == (if r.success then Success else Failed)
              && (s.tasks[id].sent == [] || s.tasks[id].sent == [r])
              && (s.tasks[id].closed ==> s.tasks[id].sent == [r])
  {
    var n := |actions|;
    assert actions[..n] == actions;
    hide IsRun, After, Answers;
    KnownIffAnswered(actions, n, id, r);
    InvAt(actions, n);
    AnswersBefore(actions, id, r);
  }

  lemma AnswersBefore(actions: seq<Action>, id: Id, r: Result)
    ensures forall k: nat :: Answers(actions, k, id, r) ==> k < |actions|
  {
  }

  lemma {:induction false} KnownTasks(s: State, actions: seq<Action>, id: Id)
    requires IsRun(s, actions)
    ensures id in After(s, actions).tasks <==> id in s.tasks || Register(id) in actions
    decreases |actions|
  {
    if actions != [] {
      KnownTasks(Do(s, actions[0]), actions[1..], id);
      TasksAfterStep(s, actions[0], id);
      assert actions == [actions[0]] + actions[1..];
    }
  }

  lemma TasksAfterStep(s: State, a: Action, id: Id)
    requires Enabled(s, a)
    ensures id in Do(s, a).tasks <==> id in s.tasks || a == Register(id)
  {
  }

  /** What a reader sees before the end: exactly the registered tasks can be looked up; a task waits until its
      execution begins, and runs from then on until its result is published. */
  lemma SnapshotTellsPlace(actions: seq<Action>, id: Id)
    requires IsRun(INITIAL, actions)
    ensures GetTask(After(INITIAL, actions), id).Some? <==> Register(id) in actions
    ensures var s := After(INITIAL, actions);
            GetTask(s, id).Some? ==>
              && (GetTask(s, id).value.status.Running? <==>
                  s.worker == Executing(id) || (s.worker.Returned? && s.worker.id == id))
              && (GetTask(s, id).value.status.Waiting? <==>
                  id in s.pending || id in s.channel || s.worker == Taken(id) || s.worker == Flagged(id))
  {
    KnownTasks(INITIAL, actions, id);
    InvInitial();
    InvRun(INITIAL, actions);
    hide IsRun, After;
    PlaceOfTask(After(INITIAL, actions), id);
  }

  lemma PlaceOfTask(s: State, id: Id)
    requires Inv(s)
    ensures id in s.tasks ==>
              && (s.tasks[id].status.Running? <==>
                  s.worker == Executing(id) || (s.worker.Returned? && s.worker.id == id))
              && (s.tasks[id].status.Waiting? <==>
                  id in s.pending || id in s.channel || s.worker == Taken(id) || s.worker == Flagged(id))
  {
  }

  /** The worker is never stuck: as long as a task waits in the channel or is in its hands, some worker
      action is enabled. */
  lemma WorkerAlwaysHasANextStep(actions: seq<Action>)
    requires IsRun(INITIAL, actions)
    ensures var s := After(INITIAL, actions);
            s.channel != [] || !s.worker.Idle? ==>
              exists a :: Enabled(s, a) && !a.Register? && !a.Send?
  {
    InvRun(INITIAL, actions);
    var s := After(INITIAL, actions);
    var next := match s.worker
      case Idle => Take
      case Taken(_) => RaiseFlag
      case Flagged(_) => Begin
      case Executing(_) => Return(Result(true, ""))
      case Returned(_, _, _) => Publish
      case Published(_, _) => Deliver
      case Delivered(_) => CloseChannel
      case Closed(_) => Retire
      case Retired(_) => LowerFlag;
    assert s.channel != [] || !s.worker.Idle? ==> Enabled(s, next);
  }
}
