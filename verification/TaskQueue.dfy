/** The task queue of MyQueue.cpp: its five operations, and any number of threads running them at once. */
module TaskQueue {
  import opened Basics

  type Task = nat

  // A call with its argument; None is the null pointer.
  datatype Operation = Push(task: Option<Task>) | PushFront(task: Option<Task>) | Pop | IsEmpty | Clear

  datatype Result = Flag(b: bool) | Taken(task: Option<Task>)

  // ---------- one call at a time ----------

  datatype Outcome = Outcome(queue: seq<Task>, result: Result)

  function Apply(op: Operation, queue: seq<Task>): Outcome {
    match op
    case Push(t) => if t.None? then Outcome(queue, Flag(false)) else Outcome(queue + [t.value], Flag(true))
    case PushFront(t) => if t.None? then Outcome(queue, Flag(false)) else Outcome([t.value] + queue, Flag(true))
    case Pop => if queue == [] then Outcome(queue, Taken(None)) else Outcome(queue[1..], Taken(Some(queue[0])))
    case IsEmpty => Outcome(queue, Flag(queue == []))
    case Clear => Outcome([], Flag(true))
  }

  class CMyQueue {
    var taskQueue: seq<Task>  // m_TaskQueue
    var locked: bool  // m_mutex

    constructor ()
      ensures taskQueue == [] && !locked
    {
      taskQueue, locked := [], false;
    }

    method Lock()
      requires !locked
      modifies `locked
      ensures locked
    {
      locked := true;
    }

    method Unlock()
      requires locked
      modifies `locked
      ensures !locked
    {
      locked := false;
    }

    method Pop() returns (p: Option<Task>)
      requires !locked
      modifies this
      ensures !locked && Apply(Operation.Pop, old(taskQueue)) == Outcome(taskQueue, Taken(p))
      ensures if p.Some? then old(taskQueue) == [p.value] + taskQueue else old(taskQueue) == taskQueue == []
    {
      p := None;
      Lock();
      if taskQueue != [] {
        p := Some(taskQueue[0]);
        taskQueue := taskQueue[1..];
      }
      Unlock();
    }

    method Push(t: Option<Task>) returns (ok: bool)
      requires !locked
      modifies this
      ensures !locked && Apply(Operation.Push(t), old(taskQueue)) == Outcome(taskQueue, Flag(ok))
      ensures ok == t.Some? && taskQueue == old(taskQueue) + (if t.Some? then [t.value] else [])
    {
      if t.None? {
        return false;
      }
      Lock();
      taskQueue := taskQueue + [t.value];
      Unlock();
      return true;
    }

    method IsEmpty() returns (ret: bool)
      requires !locked
      modifies `locked
      ensures !locked && Apply(Operation.IsEmpty, taskQueue) == Outcome(taskQueue, Flag(ret))
      ensures ret <==> |taskQueue| == 0
    {
      Lock();
      ret := taskQueue == [];
      Unlock();
    }

    method PushFront(t: Option<Task>) returns (ok: bool)
      requires !locked
      modifies this
      ensures !locked && Apply(Operation.PushFront(t), old(taskQueue)) == Outcome(taskQueue, Flag(ok))
      ensures ok == t.Some? && taskQueue == (if t.Some? then [t.value] else []) + old(taskQueue)
    {
      if t.None? {
        return false;
      }
      Lock();
      taskQueue := [t.value] + taskQueue;
      Unlock();
      return true;
    }

    method Clear() returns (ok: bool)
      requires !locked
      modifies this
      ensures !locked && Apply(Operation.Clear, old(taskQueue)) == Outcome(taskQueue, Flag(ok))
      ensures ok && |taskQueue| == 0
    {
      Lock();
      taskQueue := [];
      Unlock();
      return true;
    }
  }

  // ---------- many threads ----------

  // How far a thread is inside its critical section. Torn is a front() or pop_front() of an empty deque.
  datatype Stage = Entered | FoundTask | Read(task: Task) | Finished(result: Result) | Torn

  // `at` is the place of the finished call in the log; a null push has none.
  datatype Thread = Idle | Called(op: Operation) | Inside(op: Operation, stage: Stage)
                  | Returned(op: Operation, result: Result, at: Option<nat>)

  // A body that ran to its Unlock.
  datatype Completed = Completed(thread: nat, op: Operation, result: Result)

  datatype State = State(queue: seq<Task>, holder: Option<nat>, threads: seq<Thread>, log: seq<Completed>)

  // Push and PushFront of a null pointer return before they lock.
  predicate IsNullPush(op: Operation) { (op.Push? || op.PushFront?) && op.task.None? }

  datatype Inner = Inner(stage: Stage, queue: seq<Task>)

  // One step of the critical section of op on the deque.
  function InnerStep(op: Operation, stage: Stage, queue: seq<Task>): Inner {
    match stage
    case Entered =>
      if op == Pop then Inner(if queue == [] then Finished(Taken(None)) else FoundTask, queue)
      else Inner(Finished(Apply(op, queue).result), Apply(op, queue).queue)
    case FoundTask => if queue == [] then Inner(Torn, queue) else Inner(Read(queue[0]), queue)
    case Read(t) => if queue == [] then Inner(Torn, queue) else Inner(Finished(Taken(Some(t))), queue[1..])
    case _ => Inner(stage, queue)
  }

  predicate Initial(s: State) {
    s.queue == [] && s.holder.None? && s.log == [] && forall i :: 0 <= i < |s.threads| ==> s.threads[i] == Idle
  }

  // One step of thread i; a thread that starts a call chooses it freely.
  predicate Step(s: State, t: State, i: nat, call: Operation) {
    i < |s.threads| &&
    match s.threads[i]
    case Idle => t == s.(threads := s.threads[i := Called(call)])
    case Called(op) =>
      if IsNullPush(op) then t == s.(threads := s.threads[i := Returned(op, Flag(false), None)])
      else s.holder.None? && t == s.(holder := Some(i), threads := s.threads[i := Inside(op, Entered)])
    case Inside(op, Finished(result)) =>
      t == s.(holder := None, threads := s.threads[i := Returned(op, result, Some(|s.log|))],
              log := s.log + [Completed(i, op, result)])
    case Inside(op, stage) =>
      var inner := InnerStep(op, stage, s.queue);
      t == s.(queue := inner.queue, threads := s.threads[i := Inside(op, inner.stage)])
    case Returned(_, _, _) => t == s.(threads := s.threads[i := Idle])
  }

  ghost predicate SomeStep(s: State, t: State) { exists i: nat, call :: Step(s, t, i, call) }

  // States one after another, each reached from the last by a step of some thread.
  ghost predicate IsRun(run: seq<State>) {
    run != [] && Initial(run[0]) && forall k :: 0 < k < |run| ==> SomeStep(run[k - 1], run[k])
  }

  // The deque after the logged calls, one at a time.
  function Replay(log: seq<Completed>): seq<Task> {
    if log == [] then [] else Apply(log[|log| - 1].op, Replay(log[..|log| - 1])).queue
  }

  // Every logged result is the one the call gives at its place in the log.
  predicate ResultsAgree(log: seq<Completed>) {
    forall k :: 0 <= k < |log| ==> log[k].result == Apply(log[k].op, Replay(log[..k])).result
  }

  // What the holder's critical section has done so far to the deque the log describes.
  predicate Midway(op: Operation, stage: Stage, before: seq<Task>, queue: seq<Task>) {
    match stage
    case Entered => queue == before && !IsNullPush(op)
    case FoundTask => op == Pop && queue == before && queue != []
    case Read(t) => op == Pop && queue == before && queue != [] && t == queue[0]
    case Finished(result) => Apply(op, before) == Outcome(queue, result) && !IsNullPush(op)
    case Torn => false
  }

  predicate ThreadInOrder(s: State, i: nat)
    requires i < |s.threads|
  {
    match s.threads[i]
    case Idle => true
    case Called(_) => true
    case Inside(op, stage) => s.holder == Some(i) && Midway(op, stage, Replay(s.log), s.queue)
    case Returned(op, result, at) =>
      if at.None? then IsNullPush(op) && result == Flag(false)
      else !IsNullPush(op) && at.value < |s.log| && s.log[at.value] == Completed(i, op, result)
  }

  predicate InOrder(s: State) {
    && ResultsAgree(s.log)
    && (forall i :: 0 <= i < |s.threads| ==> ThreadInOrder(s, i))
    && (if s.holder.None? then s.queue == Replay(s.log)
        else s.holder.value < |s.threads| && s.threads[s.holder.value].Inside?)
  }

  predicate Releases(thread: Thread) { thread.Inside? && thread.stage.Finished? }

  lemma QuietStepKeepsOrder(s: State, t: State, i: nat, call: Operation)
    requires InOrder(s) && Step(s, t, i, call) && !Releases(s.threads[i])
    ensures InOrder(t)
  {
    hide Replay, Apply, ResultsAgree;
    assert ThreadInOrder(s, i);
    assert t.log == s.log;
    forall j | 0 <= j < |t.threads| && j != i
      ensures ThreadInOrder(t, j)
    {
      assert ThreadInOrder(s, j);
    }
    InnerStepKeepsPlace(s, t, i, call);
  }

  lemma InnerStepKeepsPlace(s: State, t: State, i: nat, call: Operation)
    requires InOrder(s) && Step(s, t, i, call) && !Releases(s.threads[i])
    ensures ThreadInOrder(t, i)
  {
    hide Replay, ResultsAgree;
    assert ThreadInOrder(s, i);
  }

  lemma ReleaseKeepsOrder(s: State, t: State, i: nat, call: Operation)
    requires InOrder(s) && Step(s, t, i, call) && Releases(s.threads[i])
    ensures InOrder(t)
  {
    assert ThreadInOrder(s, i);
    assert t.log[..|s.log|] == s.log;
    forall k | 0 <= k < |t.log|
      ensures t.log[k].result == Apply(t.log[k].op, Replay(t.log[..k])).result
    {
      assert k < |s.log| ==> t.log[..k] == s.log[..k];
    }
    forall j | 0 <= j < |t.threads|
      ensures ThreadInOrder(t, j)
    {
      assert ThreadInOrder(s, j);
    }
  }

  /** In every state of every run the invariant holds, whatever the interleaving and the number of threads. */
  lemma {:induction false} RunInOrder(run: seq<State>, k: nat)
    requires IsRun(run) && k < |run|
    ensures InOrder(run[k])
  {
    if k > 0 {
      RunInOrder(run, k - 1);
      assert SomeStep(run[k - 1], run[k]);
      var i: nat, call :| Step(run[k - 1], run[k], i, call);
      if Releases(run[k - 1].threads[i]) {
        ReleaseKeepsOrder(run[k - 1], run[k], i, call);
      } else {
        QuietStepKeepsOrder(run[k - 1], run[k], i, call);
      }
    }
  }

  /** Two threads are never in their critical sections together, and no front() or pop_front() meets an empty deque. */
  lemma MutualExclusion(run: seq<State>, k: nat, i: nat, j: nat)
    requires IsRun(run) && k < |run| && i < |run[k].threads| && j < |run[k].threads|
    requires run[k].threads[i].Inside?
    ensures run[k].threads[j].Inside? ==> i == j
    ensures run[k].threads[i].stage != Torn
  {
    RunInOrder(run, k);
    assert ThreadInOrder(run[k], i) && ThreadInOrder(run[k], j);
  }

  /** Whenever the mutex is free the deque is the sequential replay of the completed calls; every call that returned
      gave the result it has in that replay; null pushes return false and leave no trace. */
  lemma Linearized(run: seq<State>, k: nat)
    requires IsRun(run) && k < |run|
    ensures var s := run[k];
            && (s.holder.None? ==> s.queue == Replay(s.log))
            && (forall n :: 0 <= n < |s.log| ==> s.log[n].result == Apply(s.log[n].op, Replay(s.log[..n])).result)
            && (forall i :: 0 <= i < |s.threads| && s.threads[i].Returned? ==>
                  var r := s.threads[i];
                  if IsNullPush(r.op) then r.result == Flag(false)
                  else r.at.Some? && r.at.value < |s.log| && s.log[r.at.value] == Completed(i, r.op, r.result))
  {
    RunInOrder(run, k);
    forall i | 0 <= i < |run[k].threads| && run[k].threads[i].Returned?
      ensures ThreadInOrder(run[k], i)
    {
    }
  }

  lemma {:induction false} LogGrows(run: seq<State>, k: nat, l: nat)
    requires IsRun(run) && k <= l < |run|
    ensures run[k].log <= run[l].log
    decreases l
  {
    if k < l {
      LogGrows(run, k, l - 1);
      assert SomeStep(run[l - 1], run[l]);
    }
  }

  /** The log keeps the order of real time: a call that has returned comes before every call completed later. */
  lemma ReturnedComesFirst(run: seq<State>, k: nat, l: nat, i: nat, j: nat)
    requires IsRun(run) && k < l < |run| && i < |run[k].threads| && j < |run[l - 1].threads| && j < |run[l].threads|
    requires run[k].threads[i].Returned? && run[k].threads[i].at.Some?
    requires run[l - 1].threads[j].Inside? && run[l].threads[j].Returned?
    ensures run[l].threads[j].at.Some? && run[k].threads[i].at.value < run[l].threads[j].at.value
  {
    hide InOrder, Midway, Apply, Replay, InnerStep;
    RunInOrder(run, k);
    ReturnedIsLogged(run[k], i);
    LogGrows(run, k, l - 1);
    assert SomeStep(run[l - 1], run[l]);
  }

  lemma ReturnedIsLogged(s: State, i: nat)
    requires InOrder(s) && i < |s.threads| && s.threads[i].Returned? && s.threads[i].at.Some?
    ensures s.threads[i].at.value < |s.log|
  {
    assert ThreadInOrder(s, i);
  }

  // ---------- nothing lost, nothing twice ----------

  function Added(op: Operation): multiset<Task> {
    if (op.Push? || op.PushFront?) && op.task.Some? then multiset{op.task.value} else multiset{}
  }

  function Removed(result: Result): multiset<Task> {
    if result.Taken? && result.task.Some? then multiset{result.task.value} else multiset{}
  }

  function Dropped(op: Operation, queue: seq<Task>): multiset<Task> {
    if op == Clear then multiset(queue) else multiset{}
  }

  function Pushed(log: seq<Completed>): multiset<Task> {
    if log == [] then multiset{} else Pushed(log[..|log| - 1]) + Added(log[|log| - 1].op)
  }

  function Popped(log: seq<Completed>): multiset<Task> {
    if log == [] then multiset{} else Popped(log[..|log| - 1]) + Removed(log[|log| - 1].result)
  }

  function Cleared(log: seq<Completed>): multiset<Task> {
    if log == [] then multiset{}
    else Cleared(log[..|log| - 1]) + Dropped(log[|log| - 1].op, Replay(log[..|log| - 1]))
  }

  // What one call does to the tasks in the deque.
  lemma TaskBalance(op: Operation, queue: seq<Task>)
    ensures multiset(queue) + Added(op) ==
            multiset(Apply(op, queue).queue) + Removed(Apply(op, queue).result) + Dropped(op, queue)
  {
    match op
    case Push(t) => if t.Some? { AtTheBack(t.value, queue); }
    case PushFront(t) => if t.Some? { AtTheFront(t.value, queue); }
    case Pop => PopBalance(queue);
    case _ =>
  }

  lemma PopBalance(queue: seq<Task>)
    ensures multiset(queue) == multiset(Apply(Pop, queue).queue) + Removed(Apply(Pop, queue).result)
  {
    if queue != [] {
      FromTheFront(queue);
    }
  }

  lemma AtTheBack(t: Task, queue: seq<Task>)
    ensures multiset(queue + [t]) == multiset(queue) + multiset{t}
  {
  }

  lemma AtTheFront(t: Task, queue: seq<Task>)
    ensures multiset([t] + queue) == multiset(queue) + multiset{t}
  {
  }

  lemma FromTheFront(queue: seq<Task>)
    requires queue != []
    ensures multiset(queue) == multiset(queue[1..]) + multiset{queue[0]}
  {
    assert queue == [queue[0]] + queue[1..];
  }

  lemma ResultsOfPrefix(log: seq<Completed>, n: nat)
    requires ResultsAgree(log) && n <= |log|
    ensures ResultsAgree(log[..n])
  {
    forall k | 0 <= k < n
      ensures log[..n][k].result == Apply(log[..n][k].op, Replay(log[..n][..k])).result
    {
      assert log[..n][..k] == log[..k];
    }
  }

  lemma {:induction false} LogConserves(log: seq<Completed>)
    requires ResultsAgree(log)
    ensures Pushed(log) == Popped(log) + Cleared(log) + multiset(Replay(log))
  {
    hide Apply, Added, Removed, Dropped;
    if log != [] {
      var n := |log| - 1;
      ResultsOfPrefix(log, n);
      LogConserves(log[..n]);
      var op, before := log[n].op, Replay(log[..n]);
      TaskBalance(op, before);
      assert log[n].result == Apply(op, before).result;
      Rearrange(Pushed(log[..n]), Popped(log[..n]), Cleared(log[..n]), multiset(before),
                Added(op), multiset(Replay(log)), Removed(log[n].result), Dropped(op, before));
    }
  }

  lemma Rearrange(pushed: multiset<Task>, popped: multiset<Task>, cleared: multiset<Task>, before: multiset<Task>,
                  added: multiset<Task>, after: multiset<Task>, removed: multiset<Task>, dropped: multiset<Task>)
    requires pushed == popped + cleared + before && before + added == after + removed + dropped
    ensures pushed + added == (popped + removed) + (cleared + dropped) + after
  {
    assert pushed + added == popped + cleared + (before + added);
  }

  /** Whenever the mutex is free, the tasks pushed are those popped, those cleared and those still queued. */
  lemma TasksConserved(run: seq<State>, k: nat)
    requires IsRun(run) && k < |run| && run[k].holder.None?
    ensures Pushed(run[k].log) == Popped(run[k].log) + Cleared(run[k].log) + multiset(run[k].queue)
  {
    RunInOrder(run, k);
    LogConserves(run[k].log);
  }

  // ---------- order ----------

  function AddedLast(op: Operation): seq<Task> { if op.Push? && op.task.Some? then [op.task.value] else [] }

  function TakenFirst(r: Result): seq<Task> { if r.Taken? && r.task.Some? then [r.task.value] else [] }

  function PushedInOrder(log: seq<Completed>): seq<Task> {
    if log == [] then [] else PushedInOrder(log[..|log| - 1]) + AddedLast(log[|log| - 1].op)
  }

  function PoppedInOrder(log: seq<Completed>): seq<Task> {
    if log == [] then [] else PoppedInOrder(log[..|log| - 1]) + TakenFirst(log[|log| - 1].result)
  }

  lemma OrderKept(op: Operation, queue: seq<Task>)
    requires !op.PushFront? && op != Clear
    ensures queue + AddedLast(op) == TakenFirst(Apply(op, queue).result) + Apply(op, queue).queue
  {
    if op == Pop && queue != [] {
      assert queue == [queue[0]] + queue[1..];
    }
  }

  /** Without pushFront and clear, tasks come out in the order in which their pushes completed. */
  lemma {:induction false} FirstInFirstOut(log: seq<Completed>)
    requires ResultsAgree(log)
    requires forall k :: 0 <= k < |log| ==> !log[k].op.PushFront? && log[k].op != Clear
    ensures PushedInOrder(log) == PoppedInOrder(log) + Replay(log)
  {
    hide Apply, AddedLast, TakenFirst;
    if log != [] {
      var n := |log| - 1;
      ResultsOfPrefix(log, n);
      FirstInFirstOut(log[..n]);
      var op, before := log[n].op, Replay(log[..n]);
      OrderKept(op, before);
      assert log[n].result == Apply(op, before).result;
      calc {
        PushedInOrder(log);
        PoppedInOrder(log[..n]) + before + AddedLast(op);
        PoppedInOrder(log[..n]) + (before + AddedLast(op));
        PoppedInOrder(log[..n]) + (TakenFirst(log[n].result) + Replay(log));
        PoppedInOrder(log) + Replay(log);
      }
    }
  }

  lemma {:induction false} FrontStays(log: seq<Completed>, n: nat, k: nat, t: Task)
    requires n < k <= |log| && log[n].op == PushFront(Some(t))
    requires forall j :: n < j < k ==> log[j].op.Push? || log[j].op.IsEmpty?
    ensures Replay(log[..k]) != [] && Replay(log[..k])[0] == t
    decreases k
  {
    assert log[..k][..k - 1] == log[..k - 1];
    if k > n + 1 {
      FrontStays(log, n, k - 1, t);
    }
  }

  /** A task pushed in front is the next one popped. */
  lemma FrontComesNext(log: seq<Completed>, n: nat, k: nat, t: Task)
    requires ResultsAgree(log) && n < k < |log| && log[n].op == PushFront(Some(t)) && log[k].op == Pop
    requires forall j :: n < j < k ==> log[j].op.Push? || log[j].op.IsEmpty?
    ensures log[k].result == Taken(Some(t))
  {
    FrontStays(log, n, k, t);
  }

  /** isEmpty says true exactly when all that was pushed so far has been popped or cleared. */
  lemma EmptyMeansDrained(log: seq<Completed>, k: nat)
    requires ResultsAgree(log) && k < |log| && log[k].op == Operation.IsEmpty
    ensures log[k].result == Flag(Pushed(log[..k]) == Popped(log[..k]) + Cleared(log[..k]))
  {
    ResultsOfPrefix(log, k);
    LogConserves(log[..k]);
    EmptyBag(Popped(log[..k]) + Cleared(log[..k]), Replay(log[..k]));
  }

  lemma EmptyBag(bag: multiset<Task>, queue: seq<Task>)
    ensures bag + multiset(queue) == bag <==> queue == []
  {
    assert |bag + multiset(queue)| == |bag| + |queue|;
  }

  lemma {:induction false} LoggedNotNull(run: seq<State>, k: nat, n: nat)
    requires IsRun(run) && k < |run| && n < |run[k].log|
    ensures !IsNullPush(run[k].log[n].op)
  {
    hide Replay, Apply, ResultsAgree;
    if k > 0 {
      assert SomeStep(run[k - 1], run[k]);
      if n < |run[k - 1].log| {
        LoggedNotNull(run, k - 1, n);
        LogGrows(run, k - 1, k);
      } else {
        RunInOrder(run, k - 1);
        var i: nat, call :| Step(run[k - 1], run[k], i, call);
        assert ThreadInOrder(run[k - 1], i);
      }
    }
  }

  /** Pushes that went through say true, and clear always does. */
  lemma LoggedFlags(run: seq<State>, k: nat, n: nat)
    requires IsRun(run) && k < |run| && n < |run[k].log|
    ensures var done := run[k].log[n];
            done.op.Push? || done.op.PushFront? || done.op.Clear? ==> done.result == Flag(true)
  {
    RunInOrder(run, k);
    LoggedNotNull(run, k, n);
  }
}
