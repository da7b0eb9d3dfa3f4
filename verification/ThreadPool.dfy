/** The thread pool: deques by level, and every interleaving of its workers and its callers. */
module ThreadPool {
  import opened Wrappers

  type Task = nat

  // ---- the deques ------------------------------------------------------------------------------

  /** push_front at a level. */
  function Push(queues: seq<seq<Task>>, level: nat, task: Task): seq<seq<Task>>
    requires level < |queues|
  {
    queues[level := [task] + queues[level]]
  }

  /** The highest level that holds a task. */
  function Highest(queues: seq<seq<Task>>): (level: Option<nat>)
    ensures level.None? ==> forall l :: 0 <= l < |queues| ==> queues[l] == []
    ensures level.Some? ==> level.value < |queues| && queues[level.value] != []
    ensures level.Some? ==> forall l :: level.value < l < |queues| ==> queues[l] == []
  {
    if queues == [] then None
    else if queues[|queues| - 1] != [] then Some(|queues| - 1)
    else Highest(queues[..|queues| - 1])
  }

  function Back(queue: seq<Task>): Task
    requires queue != []
  {
    queue[|queue| - 1]
  }

  /** back and pop_back at a level. */
  function Pop(queues: seq<seq<Task>>, level: nat): seq<seq<Task>>
    requires level < |queues| && queues[level] != []
  {
    queues[level := queues[level][..|queues[level]| - 1]]
  }

  /** What becomes of an appended task. */
  datatype Where = Refused | Queued | Detached

  /** A pool of no threads, or of no queues, is an error. */
  method NewPool(threadNum: nat, queuesCount: nat) returns (pool: Option<Pool>)
    ensures pool.Some? <==> threadNum > 0 && queuesCount > 0
    ensures pool.Some? ==> fresh(pool.value) && pool.value.threadNumber == threadNum && !pool.value.isStop
                           && pool.value.stopped == 0 && |pool.value.taskQueues| == queuesCount
                           && forall l :: 0 <= l < queuesCount ==> pool.value.taskQueues[l] == []
  {
    if threadNum <= 0 || queuesCount <= 0 {
      return None;
    }
    var p := new Pool(threadNum, queuesCount);
    return Some(p);
  }

  /** The pool's own fields, with its critical sections as methods. */
  class Pool {
    const threadNumber: nat
    var taskQueues: seq<seq<Task>>
    var isStop: bool
    var stopped: nat

    constructor (threadNum: nat, queuesCount: nat)
      ensures threadNumber == threadNum && !isStop && stopped == 0
      ensures |taskQueues| == queuesCount && forall l :: 0 <= l < queuesCount ==> taskQueues[l] == []
    {
      threadNumber := threadNum;
      taskQueues := seq(queuesCount, _ => []);
      isStop := false;
      stopped := 0;
    }

    /** A level outside the queues, which a negative one is too once it is unsigned, gets the task a
        thread of its own. */
    method AppendTask(task: Task, level: int) returns (where: Where)
      modifies `taskQueues
      ensures where == if isStop then Refused else if 0 <= level < |old(taskQueues)| then Queued else Detached
      ensures taskQueues == if where == Queued then Push(old(taskQueues), level, task) else old(taskQueues)
    {
      if isStop {
        return Refused;
      }
      if level < 0 || level >= |taskQueues| {
        return Detached;
      }
      taskQueues := taskQueues[level := [task] + taskQueues[level]];
      return Queued;
    }

    /** After the task itself, which may have thrown: a task that asks for it is appended again. */
    method TaskDoit(task: Task, toRetry: bool) returns (retried: Option<Where>)
      modifies `taskQueues
      ensures retried ==
        if !toRetry then None
        else Some(if isStop then Refused else if |old(taskQueues)| > 0 then Queued else Detached)
      ensures taskQueues == if retried == Some(Queued) then Push(old(taskQueues), 0, task) else old(taskQueues)
    {
      retried := None;
      if toRetry {
        var where := AppendTask(task, 0);
        retried := Some(where);
      }
    }

    /** From the last level down to the first. */
    method GetTask() returns (task: Option<Task>)
      modifies `taskQueues
      ensures match Highest(old(taskQueues))
              case None => task == None && taskQueues == old(taskQueues)
              case Some(l) => task == Some(Back(old(taskQueues)[l])) && taskQueues == Pop(old(taskQueues), l)
    {
      task := None;
      var level := |taskQueues|;
      assert taskQueues[..level] == taskQueues;
      while level > 0
        invariant level <= |taskQueues| && taskQueues == old(taskQueues)
        invariant Highest(taskQueues) == Highest(taskQueues[..level])
      {
        level := level - 1;
        assert taskQueues[..level + 1][..level] == taskQueues[..level];
        if taskQueues[level] != [] {
          task := Some(taskQueues[level][|taskQueues[level]| - 1]);
          taskQueues := taskQueues[level := taskQueues[level][..|taskQueues[level]| - 1]];
          return;
        }
      }
    }

    method Stop()
      modifies `isStop
      ensures isStop
    {
      isStop := true;
    }

    method AllTasksStopped() returns (all: bool)
      ensures all <==> stopped >= threadNumber
    {
      return stopped >= threadNumber;
    }
  }

  // ---- all interleavings -----------------------------------------------------------------------

  /** Where a worker's loop stands: before reading is_stop, before taking the lock, asleep, in a
      task, after a task that asks to be retried, past the is_stop check of that retry, out of the
      loop, and counted as stopped. */
  datatype Worker =
    | Checking | Taking | Sleeping | Running(task: Task) | Returned(task: Task) | Pushing(task: Task)
    | Leaving | Stopped

  /** What happens under the queue lock. */
  datatype Event = Pushed(level: nat, task: Task) | Taken(level: nat, task: Task) | FoundNone

  /** callers: the tasks of append_task calls that have passed the is_stop check, with their level.
      accepted, finished, refused and log are history. */
  datatype State = State(
    threadNumber: nat, queues: seq<seq<Task>>, isStop: bool, stopped: nat,
    workers: seq<Worker>, callers: map<Task, nat>,
    accepted: set<Task>, finished: multiset<Task>, refused: multiset<Task>, log: seq<Event>)

  /** One worker's next step (toRetry: what its task asks for, if it is in one), a thread started,
      append_task up to its check, the rest of append_task, and stop. */
  datatype Step =
    | Start | Work(worker: nat, toRetry: bool)
    | Call(task: Task, level: nat) | CallPush(task: Task) | StopAll

  predicate At(s: State, i: nat, pc: Worker) { i < |s.workers| && s.workers[i] == pc }

  predicate Enabled(s: State, step: Step) {
    match step
    case Start => |s.workers| < s.threadNumber
    case Work(i, _) => i < |s.workers| && !s.workers[i].Stopped?
    case Call(t, level) => t !in s.callers && t !in s.accepted && level < |s.queues|
    case CallPush(t) => t in s.callers && s.callers[t] < |s.queues|
    case StopAll => true
  }

  function Move(s: State, i: nat, pc: Worker): State
    requires i < |s.workers|
  {
    s.(workers := s.workers[i := pc])
  }

  function PushTask(s: State, level: nat, t: Task): State
    requires level < |s.queues|
  {
    s.(queues := Push(s.queues, level, t), log := s.log + [Pushed(level, t)])
  }

  function TakeTask(s: State, i: nat): State
    requires At(s, i, Taking)
  {
    match Highest(s.queues)
    case None => Move(s, i, Sleeping).(log := s.log + [FoundNone])
    case Some(l) =>
      var t := Back(s.queues[l]);
      Move(s, i, Running(t)).(queues := Pop(s.queues, l), log := s.log + [Taken(l, t)])
  }

  function WorkerDoes(s: State, i: nat, toRetry: bool): State
    requires i < |s.workers| && !s.workers[i].Stopped? && |s.queues| > 0
  {
    match s.workers[i]
    case Checking => Move(s, i, if s.isStop then Leaving else Taking)
    case Taking => TakeTask(s, i)
    case Sleeping => Move(s, i, Checking)
    case Running(t) =>
      if toRetry then Move(s, i, Returned(t)) else Move(s, i, Checking).(finished := s.finished + multiset{t})
    case Returned(t) =>
      if s.isStop then Move(s, i, Checking).(refused := s.refused + multiset{t}) else Move(s, i, Pushing(t))
    case Pushing(t) => PushTask(Move(s, i, Checking), 0, t)
    case Leaving => Move(s, i, Stopped).(stopped := s.stopped + 1)
  }

  function Do(s: State, step: Step): State
    requires Enabled(s, step) && |s.queues| > 0
  {
    match step
    case Start => s.(workers := s.workers + [Checking])
    case Work(i, toRetry) => WorkerDoes(s, i, toRetry)
    case Call(t, level) => if s.isStop then s else s.(callers := s.callers[t := level])
    case CallPush(t) =>
      PushTask(s.(callers := s.callers - {t}, accepted := s.accepted + {t}), s.callers[t], t)
    case StopAll => s.(isStop := true)
  }

  predicate Initial(s: State) {
    && s.threadNumber > 0 && |s.queues| > 0 && (forall l :: 0 <= l < |s.queues| ==> s.queues[l] == [])
    && !s.isStop && s.stopped == 0 && s.workers == [] && s.callers == map[]
    && s.accepted == {} && s.finished == multiset{} && s.refused == multiset{} && s.log == []
  }

  /** A run from a state: each step is enabled where it is taken. */
  predicate IsRun(s: State, steps: seq<Step>)
    decreases |steps|
  {
    steps == [] || (|s.queues| > 0 && Enabled(s, steps[0]) && IsRun(Do(s, steps[0]), steps[1..]))
  }

  function After(s: State, steps: seq<Step>): State
    requires IsRun(s, steps)
    decreases |steps|
  {
    if steps == [] then s else After(Do(s, steps[0]), steps[1..])
  }

  // ---- conservation ----------------------------------------------------------------------------

  /** How often a task is in one of the parts. */
  function CountIn(parts: seq<seq<Task>>, t: Task): nat {
    if parts == [] then 0 else multiset(parts[0])[t] + CountIn(parts[1..], t)
  }

  /** Whether a worker has the task in hand, as a count. */
  function Holding(w: Worker, t: Task): nat {
    if (w.Running? || w.Returned? || w.Pushing?) && w.task == t then 1 else 0
  }

  function HeldBy(workers: seq<Worker>, t: Task): nat {
    if workers == [] then 0 else Holding(workers[0], t) + HeldBy(workers[1..], t)
  }

  /** The places a task is in: queues, workers, finished tasks, retries refused after the stop. */
  function Places(s: State, t: Task): nat {
    CountIn(s.queues, t) + HeldBy(s.workers, t) + s.finished[t] + s.refused[t]
  }

  /** Every accepted task is in exactly one place, and no other task is anywhere. */
  predicate Accounted(s: State, t: Task) { Places(s, t) == if t in s.accepted then 1 else 0 }

  ghost predicate Conserved(s: State) {
    && (forall t :: Accounted(s, t))
    && s.callers.Keys !! s.accepted
  }

  lemma {:induction false} CountUpdate(parts: seq<seq<Task>>, i: nat, part: seq<Task>, t: Task)
    requires i < |parts|
    ensures CountIn(parts[i := part], t) + multiset(parts[i])[t] == CountIn(parts, t) + multiset(part)[t]
  {
    if i == 0 {
      assert parts[0 := part][1..] == parts[1..];
    } else {
      assert parts[i := part][1..] == parts[1..][i - 1 := part];
      CountUpdate(parts[1..], i - 1, part, t);
    }
  }

  lemma {:induction false} HeldUpdate(workers: seq<Worker>, i: nat, w: Worker, t: Task)
    requires i < |workers|
    ensures HeldBy(workers[i := w], t) + Holding(workers[i], t) == HeldBy(workers, t) + Holding(w, t)
  {
    if i == 0 {
      assert workers[0 := w][1..] == workers[1..];
    } else {
      assert workers[i := w][1..] == workers[1..][i - 1 := w];
      HeldUpdate(workers[1..], i - 1, w, t);
    }
  }

  lemma {:induction false} HeldAppend(workers: seq<Worker>, t: Task)
    ensures HeldBy(workers + [Checking], t) == HeldBy(workers, t)
  {
    if workers == [] {
      assert (workers + [Checking])[1..] == [];
    } else {
      assert (workers + [Checking])[1..] == workers[1..] + [Checking];
      HeldAppend(workers[1..], t);
    }
  }

  lemma {:induction false} HeldByNone(workers: seq<Worker>, t: Task)
    requires forall i :: 0 <= i < |workers| ==> Holding(workers[i], t) == 0
    ensures HeldBy(workers, t) == 0
  {
    if workers != [] { HeldByNone(workers[1..], t); }
  }

  lemma {:induction false} CountNothing(parts: seq<seq<Task>>, t: Task)
    requires forall i :: 0 <= i < |parts| ==> parts[i] == []
    ensures CountIn(parts, t) == 0
  {
    if parts != [] { CountNothing(parts[1..], t); }
  }

  lemma QueuedAfterPush(queues: seq<seq<Task>>, level: nat, pushed: Task, t: Task)
    requires level < |queues|
    ensures CountIn(Push(queues, level, pushed), t) == CountIn(queues, t) + multiset{pushed}[t]
  {
    hide CountIn;
    CountUpdate(queues, level, [pushed] + queues[level], t);
  }

  lemma QueuedAfterPop(queues: seq<seq<Task>>, level: nat, t: Task)
    requires level < |queues| && queues[level] != []
    ensures CountIn(Pop(queues, level), t) + multiset{Back(queues[level])}[t] == CountIn(queues, t)
  {
    hide CountIn;
    var q := queues[level];
    assert q == q[..|q| - 1] + [Back(q)];
    CountUpdate(queues, level, q[..|q| - 1], t);
  }

  lemma StepConserves(s: State, step: Step)
    requires Enabled(s, step) && |s.queues| > 0 && Conserved(s)
    ensures Conserved(Do(s, step))
  {
    forall t ensures Accounted(Do(s, step), t) {
      assert Accounted(s, t);
      StepAccounts(s, step, t);
    }
  }

  lemma StepAccounts(s: State, step: Step, t: Task)
    requires Enabled(s, step) && |s.queues| > 0 && Accounted(s, t) && s.callers.Keys !! s.accepted
    ensures Accounted(Do(s, step), t)
  {
    hide CountIn, HeldBy, Push, WorkerDoes;
    match step
    case Start =>
      HeldAppend(s.workers, t);
    case Work(i, toRetry) => WorkAccounts(s, i, toRetry, t);
    case Call(_, _) =>
    case CallPush(u) => QueuedAfterPush(s.queues, s.callers[u], u, t);
    case StopAll =>
  }

  lemma WorkAccounts(s: State, i: nat, toRetry: bool, t: Task)
    requires i < |s.workers| && !s.workers[i].Stopped? && |s.queues| > 0 && Accounted(s, t)
    ensures Accounted(WorkerDoes(s, i, toRetry), t)
  {
    hide CountIn, HeldBy, Push, TakeTask;
    match s.workers[i]
    case Taking => TakeAccounts(s, i, t);
    case Pushing(u) =>
      HeldUpdate(s.workers, i, Checking, t);
      QueuedAfterPush(s.queues, 0, u, t);
    case _ => LoopAccounts(s, i, toRetry, t);
  }

  /** The steps that leave the queues alone. */
  lemma LoopAccounts(s: State, i: nat, toRetry: bool, t: Task)
    requires i < |s.workers| && !s.workers[i].Stopped? && |s.queues| > 0 && Accounted(s, t)
    requires !s.workers[i].Taking? && !s.workers[i].Pushing?
    ensures Accounted(WorkerDoes(s, i, toRetry), t)
  {
    hide CountIn, HeldBy, PushTask, TakeTask;
    match s.workers[i]
    case Checking => HeldUpdate(s.workers, i, if s.isStop then Leaving else Taking, t);
    case Sleeping => HeldUpdate(s.workers, i, Checking, t);
    case Running(u) => HeldUpdate(s.workers, i, if toRetry then Returned(u) else Checking, t);
    case Returned(u) => HeldUpdate(s.workers, i, if s.isStop then Checking else Pushing(u), t);
    case Leaving => HeldUpdate(s.workers, i, Stopped, t);
  }

  lemma TakeAccounts(s: State, i: nat, t: Task)
    requires At(s, i, Taking) && Accounted(s, t)
    ensures Accounted(TakeTask(s, i), t)
  {
    hide CountIn, HeldBy, Push, Pop;
    match Highest(s.queues)
    case None => HeldUpdate(s.workers, i, Sleeping, t);
    case Some(l) =>
      HeldUpdate(s.workers, i, Running(Back(s.queues[l])), t);
      QueuedAfterPop(s.queues, l, t);
  }

  // ---- order -----------------------------------------------------------------------------------

  /** What the log says of one level: tasks appended, and tasks taken, in time order. */
  function Pushes(log: seq<Event>, level: nat): seq<Task> {
    if log == [] then []
    else
      var e := log[|log| - 1];
      Pushes(log[..|log| - 1], level) + if e.Pushed? && e.level == level then [e.task] else []
  }

  function Takes(log: seq<Event>, level: nat): seq<Task> {
    if log == [] then []
    else
      var e := log[|log| - 1];
      Takes(log[..|log| - 1], level) + if e.Taken? && e.level == level then [e.task] else []
  }

  function Reversed(q: seq<Task>): seq<Task> {
    if q == [] then [] else Reversed(q[1..]) + [q[0]]
  }

  lemma {:induction false} ReversedBack(q: seq<Task>)
    requires q != []
    ensures Reversed(q) == [Back(q)] + Reversed(q[..|q| - 1])
  {
    if |q| > 1 {
      ReversedBack(q[1..]);
      assert q[1..][..|q| - 2] == q[..|q| - 1][1..];
    }
  }

  /** The appends of a level are the takes from it, then its queue from the oldest on. */
  predicate Fifo(queues: seq<seq<Task>>, log: seq<Event>) {
    forall l :: 0 <= l < |queues| ==> Pushes(log, l) == Takes(log, l) + Reversed(queues[l])
  }

  /** Everything appended to the level so far has been taken from it. */
  predicate Drained(log: seq<Event>, level: nat) { Takes(log, level) == Pushes(log, level) }

  /** An event is in order: a take is of the oldest task of its level, with all higher levels
      drained; a worker that finds nothing finds all levels drained. */
  predicate InOrder(levels: nat, log: seq<Event>, e: Event) {
    match e
    case Pushed(l, t) => l < levels
    case Taken(l, t) =>
      && l < levels && Takes(log, l) + [t] <= Pushes(log, l)
      && forall h :: l < h < levels ==> Drained(log, h)
    case FoundNone => forall h :: 0 <= h < levels ==> Drained(log, h)
  }

  predicate AllInOrder(levels: nat, log: seq<Event>) {
    log == [] || (AllInOrder(levels, log[..|log| - 1]) && InOrder(levels, log[..|log| - 1], log[|log| - 1]))
  }

  predicate Ordered(s: State) { Fifo(s.queues, s.log) && AllInOrder(|s.queues|, s.log) }

  lemma LogAppend(log: seq<Event>, e: Event, levels: nat)
    ensures forall l :: Pushes(log + [e], l) == Pushes(log, l) + if e.Pushed? && e.level == l then [e.task] else []
    ensures forall l :: Takes(log + [e], l) == Takes(log, l) + if e.Taken? && e.level == l then [e.task] else []
    ensures AllInOrder(levels, log + [e]) == (AllInOrder(levels, log) && InOrder(levels, log, e))
  {
    assert (log + [e])[..|log|] == log;
  }

  lemma PushKeepsOrder(s: State, level: nat, t: Task)
    requires level < |s.queues| && Ordered(s)
    ensures Ordered(PushTask(s, level, t))
  {
    hide AllInOrder, Pushes, Takes;
    LogAppend(s.log, Pushed(level, t), |s.queues|);
    assert ([t] + s.queues[level])[1..] == s.queues[level];
  }

  lemma TakeKeepsOrder(s: State, i: nat)
    requires At(s, i, Taking) && Ordered(s)
    ensures Ordered(TakeTask(s, i))
  {
    hide AllInOrder, Pushes, Takes;
    match Highest(s.queues)
    case None => LogAppend(s.log, FoundNone, |s.queues|);
    case Some(l) =>
      var t := Back(s.queues[l]);
      LogAppend(s.log, Taken(l, t), |s.queues|);
      ReversedBack(s.queues[l]);
  }

  // ---- the stop --------------------------------------------------------------------------------

  function CountAt(workers: seq<Worker>, pc: Worker): nat {
    if workers == [] then 0 else (if workers[0] == pc then 1 else 0) + CountAt(workers[1..], pc)
  }

  /** The counter counts the stopped workers; nobody leaves and no retry is refused before the stop. */
  predicate Counted(s: State) {
    && |s.workers| <= s.threadNumber
    && s.stopped == CountAt(s.workers, Stopped)
    && (!s.isStop ==> s.refused == multiset{})
    && (!s.isStop ==> forall i :: 0 <= i < |s.workers| ==> !s.workers[i].Leaving? && !s.workers[i].Stopped?)
  }

  lemma {:induction false} CountAtUpdate(workers: seq<Worker>, i: nat, w: Worker, pc: Worker)
    requires i < |workers|
    ensures CountAt(workers[i := w], pc) + (if workers[i] == pc then 1 else 0)
         == CountAt(workers, pc) + (if w == pc then 1 else 0)
  {
    if i == 0 {
      assert workers[0 := w][1..] == workers[1..];
    } else {
      assert workers[i := w][1..] == workers[1..][i - 1 := w];
      CountAtUpdate(workers[1..], i - 1, w, pc);
    }
  }

  lemma {:induction false} CountAtAppend(workers: seq<Worker>, w: Worker, pc: Worker)
    ensures CountAt(workers + [w], pc) == CountAt(workers, pc) + (if w == pc then 1 else 0)
  {
    if workers == [] {
      assert (workers + [w])[1..] == [];
    } else {
      assert (workers + [w])[1..] == workers[1..] + [w];
      CountAtAppend(workers[1..], w, pc);
    }
  }

  lemma {:induction false} CountAtAll(workers: seq<Worker>, pc: Worker)
    ensures CountAt(workers, pc) <= |workers|
    ensures CountAt(workers, pc) == |workers| ==> forall i :: 0 <= i < |workers| ==> workers[i] == pc
  {
    if workers != [] {
      CountAtAll(workers[1..], pc);
      assert forall i :: 1 <= i < |workers| ==> workers[i] == workers[1..][i - 1];
    }
  }

  lemma StepKeepsCount(s: State, step: Step)
    requires Enabled(s, step) && |s.queues| > 0 && Counted(s)
    ensures Counted(Do(s, step))
  {
    hide CountAt, TakeTask;
    match step
    case Start => CountAtAppend(s.workers, Checking, Stopped);
    case Work(i, toRetry) => WorkKeepsCount(s, i, toRetry);
    case _ =>
  }

  /** What a worker's step leaves alone, and what it counts. */
  lemma WorkChanges(s: State, i: nat, toRetry: bool)
    requires i < |s.workers| && !s.workers[i].Stopped? && |s.queues| > 0
    requires s.workers[i].Leaving? ==> s.isStop
    ensures var e := WorkerDoes(s, i, toRetry);
      && |e.workers| == |s.workers| && e.workers == s.workers[i := e.workers[i]]
      && (e.threadNumber, e.isStop) == (s.threadNumber, s.isStop) && (!s.isStop ==> e.refused == s.refused)
      && e.stopped == s.stopped + (if e.workers[i] == Stopped then 1 else 0)
      && (e.workers[i].Leaving? || e.workers[i].Stopped? ==> s.isStop)
  {
    hide Push, Pop, Back, Highest;
  }

  lemma WorkKeepsCount(s: State, i: nat, toRetry: bool)
    requires i < |s.workers| && !s.workers[i].Stopped? && |s.queues| > 0 && Counted(s)
    ensures Counted(WorkerDoes(s, i, toRetry))
  {
    hide CountAt, WorkerDoes;
    WorkChanges(s, i, toRetry);
    CountAtUpdate(s.workers, i, WorkerDoes(s, i, toRetry).workers[i], Stopped);
  }

  // ---- over every run --------------------------------------------------------------------------

  lemma StepKeepsOrder(s: State, step: Step)
    requires Enabled(s, step) && |s.queues| > 0 && Ordered(s)
    ensures Ordered(Do(s, step))
  {
    hide Fifo, AllInOrder, PushTask, TakeTask;
    match step
    case Work(i, toRetry) =>
      if s.workers[i].Pushing? {
        assert Ordered(Move(s, i, Checking));
        PushKeepsOrder(Move(s, i, Checking), 0, s.workers[i].task);
      } else if s.workers[i].Taking? {
        TakeKeepsOrder(s, i);
      }
    case CallPush(t) =>
      PushKeepsOrder(s.(callers := s.callers - {t}, accepted := s.accepted + {t}), s.callers[t], t);
    case _ =>
  }

  ghost predicate Invariant(s: State) { |s.queues| > 0 && Conserved(s) && Ordered(s) && Counted(s) }

  lemma InitialInvariant(s: State)
    requires Initial(s)
    ensures Invariant(s)
  {
    forall t ensures Accounted(s, t) { CountNothing(s.queues, t); }
  }

  lemma {:induction false} RunKeepsInvariant(s: State, steps: seq<Step>)
    requires Invariant(s) && IsRun(s, steps)
    ensures Invariant(After(s, steps))
    decreases |steps|
  {
    hide Conserved, Ordered, Counted, Do, Enabled;
    if steps != [] {
      StepConserves(s, steps[0]);
      StepKeepsOrder(s, steps[0]);
      StepKeepsCount(s, steps[0]);
      StepKeepsLevels(s, steps[0]);
      RunKeepsInvariant(Do(s, steps[0]), steps[1..]);
    }
  }

  lemma StepKeepsLevels(s: State, step: Step)
    requires Enabled(s, step) && |s.queues| > 0
    ensures |Do(s, step).queues| == |s.queues| && Do(s, step).threadNumber == s.threadNumber
    ensures s.isStop ==> Do(s, step).isStop
  {
  }

  /** Conservation: after every run, each accepted task is queued, held by one worker, finished, or
      refused when it asked to be retried after the stop; exactly one of these, once. */
  lemma ExactlyOnePlace(s: State, steps: seq<Step>, t: Task)
    requires Initial(s) && IsRun(s, steps)
    ensures var e := After(s, steps);
      CountIn(e.queues, t) + HeldBy(e.workers, t) + e.finished[t] + e.refused[t]
        == (if t in e.accepted then 1 else 0)
    ensures !After(s, steps).isStop ==> After(s, steps).refused == multiset{}
  {
    InitialInvariant(s);
    RunKeepsInvariant(s, steps);
    assert Accounted(After(s, steps), t);
  }

  /** An event of the log, with what went before it. */
  lemma {:induction false} EventInOrder(levels: nat, log: seq<Event>, k: nat)
    requires AllInOrder(levels, log) && k < |log|
    ensures InOrder(levels, log[..k], log[k])
  {
    if k < |log| - 1 {
      EventInOrder(levels, log[..|log| - 1], k);
      assert log[..|log| - 1][..k] == log[..k];
    }
  }

  /** First in, first out within a level, and higher levels first: in every run, the k-th critical
      section, if it takes a task, takes the oldest of its level and leaves no task of a higher
      level behind, and if it finds none there is none. */
  lemma TakenInOrder(s: State, steps: seq<Step>, k: nat)
    requires Initial(s) && IsRun(s, steps) && k < |After(s, steps).log|
    ensures var log := After(s, steps).log; InOrder(|s.queues|, log[..k], log[k])
  {
    InitialInvariant(s);
    RunKeepsInvariant(s, steps);
    RunKeepsLevels(s, steps);
    EventInOrder(|s.queues|, After(s, steps).log, k);
  }

  lemma {:induction false} RunKeepsLevels(s: State, steps: seq<Step>)
    requires IsRun(s, steps)
    ensures |After(s, steps).queues| == |s.queues| && After(s, steps).threadNumber == s.threadNumber
    ensures s.isStop ==> After(s, steps).isStop
    decreases |steps|
  {
    hide Do, Enabled;
    if steps != [] {
      StepKeepsLevels(s, steps[0]);
      RunKeepsLevels(Do(s, steps[0]), steps[1..]);
    }
  }

  /** What is still queued at a level is what was appended there and not yet taken, in order. */
  lemma QueueIsTheRest(s: State, steps: seq<Step>, level: nat)
    requires Initial(s) && IsRun(s, steps) && level < |s.queues|
    ensures var e := After(s, steps);
      level < |e.queues| && Pushes(e.log, level) == Takes(e.log, level) + Reversed(e.queues[level])
  {
    InitialInvariant(s);
    RunKeepsInvariant(s, steps);
    RunKeepsLevels(s, steps);
  }

  // ---- levels ----------------------------------------------------------------------------------

  predicate WasPushed(log: seq<Event>, t: Task) {
    exists k :: 0 <= k < |log| && log[k].Pushed? && log[k].task == t
  }

  /** A task is appended at the level that its caller asked for, and each time that it is retried, at level 0. */
  predicate LevelIsRight(before: seq<Event>, e: Event, steps: seq<Step>) {
    e.Pushed? ==> if WasPushed(before, e.task) then e.level == 0 else Call(e.task, e.level) in steps
  }

  /** Only accepted tasks have been appended, callers ask for the level they were given, and all levels are right. */
  ghost predicate LevelsRight(s: State, steps: seq<Step>) {
    && (forall k :: 0 <= k < |s.log| && s.log[k].Pushed? ==> s.log[k].task in s.accepted)
    && (forall t :: t in s.accepted ==> WasPushed(s.log, t))
    && (forall i :: 0 <= i < |s.workers| && s.workers[i].Pushing? ==> s.workers[i].task in s.accepted)
    && (forall t :: t in s.callers ==> Call(t, s.callers[t]) in steps)
    && forall k :: 0 <= k < |s.log| ==> LevelIsRight(s.log[..k], s.log[k], steps)
  }

  lemma {:induction false} HeldOne(workers: seq<Worker>, i: nat, t: Task)
    requires i < |workers| && Holding(workers[i], t) == 1
    ensures HeldBy(workers, t) >= 1
  {
    if i > 0 { HeldOne(workers[1..], i - 1, t); }
  }

  lemma HeldIsAccepted(s: State, i: nat, t: Task)
    requires Accounted(s, t) && i < |s.workers| && Holding(s.workers[i], t) == 1
    ensures t in s.accepted
  {
    HeldOne(s.workers, i, t);
  }

  lemma OneMoreEvent(log: seq<Event>, e: Event, steps: seq<Step>, more: seq<Step>)
    requires forall k :: 0 <= k < |log| ==> LevelIsRight(log[..k], log[k], steps)
    requires LevelIsRight(log, e, more) && steps <= more
    ensures forall k :: 0 <= k <= |log| ==> LevelIsRight((log + [e])[..k], (log + [e])[k], more)
    ensures forall t :: WasPushed(log + [e], t) <==> WasPushed(log, t) || (e.Pushed? && e.task == t)
  {
    assert (log + [e])[..|log|] == log && (log + [e])[|log|] == e;
    forall k | 0 <= k < |log| ensures LevelIsRight((log + [e])[..k], (log + [e])[k], more) {
      assert (log + [e])[..k] == log[..k] && (log + [e])[k] == log[k];
      assert LevelIsRight(log[..k], log[k], steps);
    }
    forall t | WasPushed(log, t) ensures WasPushed(log + [e], t) {
      var k :| 0 <= k < |log| && log[k].Pushed? && log[k].task == t;
      assert (log + [e])[k] == log[k];
    }
  }

  lemma StepKeepsLevelsRight(s: State, steps: seq<Step>, step: Step)
    requires Enabled(s, step) && |s.queues| > 0 && Conserved(s) && LevelsRight(s, steps)
    ensures LevelsRight(Do(s, step), steps + [step])
  {
    hide Push, Pop, Highest, Back, WasPushed, LevelIsRight;
    var e, more := Do(s, step), steps + [step];
    SameEvents(s.log, steps, more);
    if step.Work? {
      assert forall t :: t in s.callers ==> Call(t, s.callers[t]) in steps;
      WorkKeepsLevelsRight(s, steps, step);
    } else if step.CallPush? {
      CallPushKeepsLevelsRight(s, steps, step.task);
    } else if step.Call? {
      assert more[|steps|] == step;
    }
  }

  lemma SameEvents(log: seq<Event>, steps: seq<Step>, more: seq<Step>)
    requires forall k :: 0 <= k < |log| ==> LevelIsRight(log[..k], log[k], steps)
    requires steps <= more
    ensures forall k :: 0 <= k < |log| ==> LevelIsRight(log[..k], log[k], more)
  {
    forall k | 0 <= k < |log| ensures LevelIsRight(log[..k], log[k], more) {
      assert LevelIsRight(log[..k], log[k], steps);
    }
  }

  lemma CallPushKeepsLevelsRight(s: State, steps: seq<Step>, t: Task)
    requires Enabled(s, CallPush(t)) && |s.queues| > 0 && Conserved(s) && LevelsRight(s, steps)
    ensures LevelsRight(Do(s, CallPush(t)), steps + [CallPush(t)])
  {
    hide Push, Accounted;
    var e := Pushed(s.callers[t], t);
    var more := steps + [CallPush(t)];
    assert t !in s.accepted;
    assert !WasPushed(s.log, t);
    assert Call(t, s.callers[t]) in more;
    hide WasPushed;
    assert LevelIsRight(s.log, e, more);
    OneMoreEvent(s.log, e, steps, more);
  }

  lemma WorkKeepsLevelsRight(s: State, steps: seq<Step>, step: Step)
    requires step.Work? && Enabled(s, step) && |s.queues| > 0 && Conserved(s) && LevelsRight(s, steps)
    ensures LevelsRight(Do(s, step), steps + [step])
  {
    hide Push, Pop, Back, WasPushed, HeldBy, CountIn;
    var i, more := step.worker, steps + [step];
    SameEvents(s.log, steps, more);
    match s.workers[i]
    case Taking =>
      var e := match Highest(s.queues) case None => FoundNone case Some(l) => Taken(l, Back(s.queues[l]));
      OneMoreEvent(s.log, e, steps, more);
    case Pushing(t) =>
      OneMoreEvent(s.log, Pushed(0, t), steps, more);
    case Returned(t) =>
      assert Accounted(s, t);
      HeldIsAccepted(s, i, t);
    case _ =>
  }

  lemma {:induction false} RunKeepsLevelsRight(s: State, done: seq<Step>, steps: seq<Step>)
    requires Invariant(s) && LevelsRight(s, done) && IsRun(s, steps)
    ensures LevelsRight(After(s, steps), done + steps)
    decreases |steps|
  {
    hide Conserved, Ordered, Counted, Do, Enabled, LevelsRight;
    if steps == [] {
      assert done + steps == done;
    } else {
      StepConserves(s, steps[0]);
      StepKeepsOrder(s, steps[0]);
      StepKeepsCount(s, steps[0]);
      StepKeepsLevels(s, steps[0]);
      StepKeepsLevelsRight(s, done, steps[0]);
      RunKeepsLevelsRight(Do(s, steps[0]), done + [steps[0]], steps[1..]);
      assert done + [steps[0]] + steps[1..] == done + steps;
    }
  }

  /** In every run, the k-th critical section, if it appends a task, does so at the level that a call of the run asked
      for, or, if the task has been appended before, at level 0. */
  lemma AppendedAtItsLevel(s: State, steps: seq<Step>, k: nat)
    requires Initial(s) && IsRun(s, steps) && k < |After(s, steps).log| && After(s, steps).log[k].Pushed?
    ensures var log := After(s, steps).log;
      if WasPushed(log[..k], log[k].task) then log[k].level == 0 else Call(log[k].task, log[k].level) in steps
  {
    InitialInvariant(s);
    RunKeepsLevelsRight(s, [], steps);
    assert [] + steps == steps;
    assert LevelIsRight(After(s, steps).log[..k], After(s, steps).log[k], steps);
  }

  // ---- after the stop --------------------------------------------------------------------------

  predicate AllTasksStopped(s: State) { s.stopped >= s.threadNumber }

  function TakesIn(log: seq<Event>): nat {
    if log == [] then 0 else TakesIn(log[..|log| - 1]) + if log[|log| - 1].Taken? then 1 else 0
  }

  lemma TakesAppend(log: seq<Event>, e: Event)
    ensures TakesIn(log + [e]) == TakesIn(log) + if e.Taken? then 1 else 0
  {
    assert (log + [e])[..|log|] == log;
  }

  /** After the stop, no more tasks are taken than there were workers past the is_stop check. */
  lemma {:induction false} StoppedTakesBound(s: State, steps: seq<Step>)
    requires IsRun(s, steps) && s.isStop
    ensures TakesIn(After(s, steps).log) + CountAt(After(s, steps).workers, Taking)
         <= TakesIn(s.log) + CountAt(s.workers, Taking)
    decreases |steps|
  {
    hide Do, Enabled, CountAt, TakesIn;
    if steps != [] {
      StoppedStepTakes(s, steps[0]);
      StepKeepsLevels(s, steps[0]);
      StoppedTakesBound(Do(s, steps[0]), steps[1..]);
    }
  }

  lemma StoppedStepTakes(s: State, step: Step)
    requires Enabled(s, step) && |s.queues| > 0 && s.isStop
    ensures var t := Do(s, step);
      TakesIn(t.log) + CountAt(t.workers, Taking) <= TakesIn(s.log) + CountAt(s.workers, Taking)
  {
    hide CountAt, TakesIn;
    match step
    case Start => CountAtAppend(s.workers, Checking, Taking);
    case Work(i, toRetry) =>
      var e := Do(s, step);
      CountAtUpdate(s.workers, i, e.workers[i], Taking);
      if e.log != s.log { TakesAppend(s.log, e.log[|s.log|]); }
    case CallPush(t) => TakesAppend(s.log, Pushed(s.callers[t], t));
    case _ =>
  }

  function PushesIn(log: seq<Event>): nat {
    if log == [] then 0 else PushesIn(log[..|log| - 1]) + if log[|log| - 1].Pushed? then 1 else 0
  }

  /** Workers whose retry has passed the is_stop check. */
  function Retrying(workers: seq<Worker>): nat {
    if workers == [] then 0 else (if workers[0].Pushing? then 1 else 0) + Retrying(workers[1..])
  }

  lemma PushesAppend(log: seq<Event>, e: Event)
    ensures PushesIn(log + [e]) == PushesIn(log) + if e.Pushed? then 1 else 0
  {
    assert (log + [e])[..|log|] == log;
  }

  lemma {:induction false} RetryingUpdate(workers: seq<Worker>, i: nat, w: Worker)
    requires i < |workers|
    ensures Retrying(workers[i := w]) + (if workers[i].Pushing? then 1 else 0)
         == Retrying(workers) + (if w.Pushing? then 1 else 0)
  {
    if i == 0 {
      assert workers[0 := w][1..] == workers[1..];
    } else {
      assert workers[i := w][1..] == workers[1..][i - 1 := w];
      RetryingUpdate(workers[1..], i - 1, w);
    }
  }

  lemma {:induction false} RetryingAppend(workers: seq<Worker>)
    ensures Retrying(workers + [Checking]) == Retrying(workers)
  {
    if workers == [] {
      assert (workers + [Checking])[1..] == [];
    } else {
      assert (workers + [Checking])[1..] == workers[1..] + [Checking];
      RetryingAppend(workers[1..]);
    }
  }

  /** After the stop, no more tasks are appended than there were callers and retries past the is_stop check. */
  lemma {:induction false} StoppedPushesBound(s: State, steps: seq<Step>)
    requires IsRun(s, steps) && s.isStop
    ensures var e := After(s, steps);
      PushesIn(e.log) + Retrying(e.workers) + |e.callers| <= PushesIn(s.log) + Retrying(s.workers) + |s.callers|
    decreases |steps|
  {
    hide Do, Enabled, Retrying, PushesIn;
    if steps != [] {
      StoppedStepPushes(s, steps[0]);
      StepKeepsLevels(s, steps[0]);
      StoppedPushesBound(Do(s, steps[0]), steps[1..]);
    }
  }

  lemma StoppedStepPushes(s: State, step: Step)
    requires Enabled(s, step) && |s.queues| > 0 && s.isStop
    ensures var e := Do(s, step);
      PushesIn(e.log) + Retrying(e.workers) + |e.callers| <= PushesIn(s.log) + Retrying(s.workers) + |s.callers|
  {
    hide Retrying, PushesIn, Push, Pop, Back, Highest;
    match step
    case Start => RetryingAppend(s.workers);
    case Work(i, toRetry) =>
      var e := Do(s, step);
      RetryingUpdate(s.workers, i, e.workers[i]);
      if e.log != s.log { PushesAppend(s.log, e.log[|s.log|]); }
    case CallPush(t) =>
      PushesAppend(s.log, Pushed(s.callers[t], t));
      OneLess(s.callers, t);
    case _ =>
  }

  lemma OneLess(m: map<Task, nat>, t: Task)
    requires t in m
    ensures |m - {t}| == |m| - 1
  {
    assert (m - {t}).Keys == m.Keys - {t};
    assert |m| == |m.Keys| && |m - {t}| == |(m - {t}).Keys|;
  }

  /** Once all_tasks_stopped holds, in every run, every thread of the pool has stopped, no worker
      holds a task, and none is taken in any continuation of the run. */
  lemma StoppedForGood(s: State, steps: seq<Step>, more: seq<Step>)
    requires Initial(s) && IsRun(s, steps) && AllTasksStopped(After(s, steps)) && IsRun(After(s, steps), more)
    ensures var e := After(s, steps);
      && |e.workers| == e.threadNumber && (forall i :: 0 <= i < |e.workers| ==> e.workers[i] == Stopped)
      && forall t :: HeldBy(e.workers, t) == 0
    ensures var e := After(s, steps); var f := After(e, more);
      f.workers == e.workers && e.log <= f.log && forall k :: |e.log| <= k < |f.log| ==> f.log[k].Pushed?
  {
    var e := After(s, steps);
    InitialInvariant(s);
    RunKeepsInvariant(s, steps);
    RunKeepsLevels(s, steps);
    CountAtAll(e.workers, Stopped);
    forall t ensures HeldBy(e.workers, t) == 0 { HeldByNone(e.workers, t); }
    assert e.isStop;
    StoppedStay(e, more);
  }

  lemma {:induction false} StoppedStay(s: State, steps: seq<Step>)
    requires IsRun(s, steps) && |s.workers| == s.threadNumber
    requires forall i :: 0 <= i < |s.workers| ==> s.workers[i] == Stopped
    ensures var f := After(s, steps);
      f.workers == s.workers && s.log <= f.log && forall k :: |s.log| <= k < |f.log| ==> f.log[k].Pushed?
    decreases |steps|
  {
    if steps != [] { StoppedStay(Do(s, steps[0]), steps[1..]); }
  }
}
