/** The gateway's thread pool (VdesService/thread_pool.cpp): a queue under a lock, workers
    sleeping on a condition variable, and a destructor that drains the queue.

    A step is what one thread does while it holds the lock, or one call to the condition
    variable.  A producer queues a task under the lock and notifies afterwards, so a state
    counts the notifications still owed; a notification without a sleeper is lost. */
module ThreadPool {
  import opened Bytes

  /** Tasks are told apart by a number; what they do plays no part. */
  type Task = nat

  datatype Phase =
    | Awake             // started, woken or done with a task: about to take the lock
    | Asleep            // waiting on the condition variable
    | Running(task: Task)
    | Exited

  datatype Pool = Pool(
    queue: seq<Task>, stop: bool, workers: seq<Phase>, owed: nat, owedAll: bool,
    accepted: seq<Task>, taken: seq<Task>, finished: seq<Task>)

  datatype Step =
    | Enqueue(task: Task)
    | NotifyOne(w: nat)      // one sleeper is woken
    | NotifyNobody           // or there is none
    | Acquire(w: nat)
    | Finish(w: nat)
    | WakeUp(w: nat)         // without notification
    | Stop
    | NotifyAll

  predicate In(p: Pool, w: nat, phase: Phase) {
    w < |p.workers| && p.workers[w] == phase
  }

  predicate NobodyAsleep(p: Pool) {
    forall w :: 0 <= w < |p.workers| ==> p.workers[w] != Asleep
  }

  predicate Enabled(p: Pool, step: Step) {
    match step
    case Enqueue(_) => true
    case NotifyOne(w) => p.owed > 0 && In(p, w, Asleep)
    case NotifyNobody => p.owed > 0 && NobodyAsleep(p)
    case Acquire(w) => In(p, w, Awake)
    case Finish(w) => w < |p.workers| && p.workers[w].Running?
    case WakeUp(w) => In(p, w, Asleep)
    case Stop => true
    case NotifyAll => p.owedAll
  }

  function Woken(workers: seq<Phase>): (ws: seq<Phase>)
    ensures |ws| == |workers|
    ensures forall w :: 0 <= w < |ws| ==> ws[w] == if workers[w].Asleep? then Awake else workers[w]
  {
    seq(|workers|, w requires 0 <= w < |workers| => if workers[w].Asleep? then Awake else workers[w])
  }

  function Put(p: Pool, w: nat, phase: Phase): Pool
    requires w < |p.workers|
  {
    p.(workers := p.workers[w := phase])
  }

  function Apply(p: Pool, step: Step): Pool
    requires Enabled(p, step)
  {
    match step
    case Enqueue(task) =>
      if p.stop then p
      else p.(queue := p.queue + [task], accepted := p.accepted + [task], owed := p.owed + 1)
    case NotifyOne(w) => Put(p, w, Awake).(owed := p.owed - 1)
    case NotifyNobody => p.(owed := p.owed - 1)
    case Acquire(w) =>
      if p.queue == [] then Put(p, w, if p.stop then Exited else Asleep)
      else Put(p, w, Running(p.queue[0])).(queue := p.queue[1..], taken := p.taken + [p.queue[0]])
    case Finish(w) => Put(p, w, Awake).(finished := p.finished + [p.workers[w].task])
    case WakeUp(w) => Put(p, w, Awake)
    case Stop => p.(stop := true, owedAll := true)
    case NotifyAll => p.(workers := Woken(p.workers), owedAll := false)
  }

  /** Between 2 and 16 workers, whatever was asked for. */
  function WorkerCount(asked: nat, hardware: nat): (n: nat)
    ensures 2 <= n <= 16
    ensures 2 <= asked <= 16 ==> n == asked
    ensures asked == 0 && 2 <= hardware <= 16 ==> n == hardware
    ensures asked == 0 && hardware == 0 ==> n == 4
    ensures asked == 1 || (asked == 0 && hardware == 1) ==> n == 2
    ensures asked > 16 || (asked == 0 && hardware > 16) ==> n == 16
  {
    var wanted := if asked > 0 then asked else if hardware > 0 then hardware else 4;
    if wanted < 2 then 2 else if wanted > 16 then 16 else wanted
  }

  function Initial(asked: nat, hardware: nat): Pool {
    Pool([], false, seq(WorkerCount(asked, hardware), _ => Awake), 0, false, [], [], [])
  }

  // ---------- The critical sections in place ----------

  datatype Turn = Wait | Leave | Take(task: Task)

  /** What the threads share; which thread runs which section is the business of the steps. */
  class ThreadPool {
    var tasks: seq<Task>
    var stop: bool
    const workers: nat

    constructor (numThreads: nat, hardware: nat)
      ensures tasks == [] && !stop && workers == WorkerCount(numThreads, hardware)
    {
      tasks, stop := [], false;
      var n := numThreads;
      if n == 0 {
        n := hardware;
        if n == 0 {
          n := 4;
        }
      }
      if n < 2 {
        n := 2;
      }
      if n > 16 {
        n := 16;
      }
      workers := n;
    }

    method Enqueue(task: Task) returns (notify: bool)
      modifies this`tasks
      ensures forall p: Pool :: p.queue == old(tasks) && p.stop == stop ==>
                var p' := Apply(p, Step.Enqueue(task));
                tasks == p'.queue && (notify <==> p'.owed == p.owed + 1)
    {
      if stop {
        return false;
      }
      tasks := tasks + [task];
      notify := true;
    }

    /** One turn of the worker loop under the lock: the wait condition, then the queue. */
    method TakeTurn() returns (turn: Turn)
      modifies this`tasks
      ensures forall p: Pool, w: nat :: p.queue == old(tasks) && p.stop == stop && Enabled(p, Acquire(w)) ==>
                var p' := Apply(p, Acquire(w));
                && tasks == p'.queue
                && p'.workers[w] == match turn case Wait => Asleep case Leave => Exited case Take(task) => Running(task)
    {
      if !stop && tasks == [] {
        return Wait;
      }
      if stop && tasks == [] {
        return Leave;
      }
      turn := Take(tasks[0]);
      tasks := tasks[1..];
    }

    /** What the destructor does under the lock; it then owes a notification to everybody. */
    method Shutdown()
      modifies this`stop
      ensures forall p: Pool :: p.queue == tasks && p.stop == old(stop) ==>
                var p' := Apply(p, Step.Stop);
                tasks == p'.queue && stop == p'.stop && p'.owedAll
    {
      stop := true;
    }
  }

  // ---------- Counting workers ----------

  function AwakeCount(ws: seq<Phase>): nat {
    if ws == [] then 0 else AwakeCount(ws[..|ws| - 1]) + One(ws[|ws| - 1].Awake?)
  }

  /** How many workers are running one given task. */
  function Held(ws: seq<Phase>, task: Task): nat {
    if ws == [] then 0 else Held(ws[..|ws| - 1], task) + One(ws[|ws| - 1] == Running(task))
  }

  /** How often one given task occurs. */
  function Times(tasks: seq<Task>, task: Task): nat {
    if tasks == [] then 0 else Times(tasks[..|tasks| - 1], task) + One(tasks[|tasks| - 1] == task)
  }

  lemma TimesNext(tasks: seq<Task>, next: Task, task: Task)
    ensures Times(tasks + [next], task) == Times(tasks, task) + One(next == task)
  {
    assert (tasks + [next])[..|tasks|] == tasks;
  }

  /** Work left for the workers: one turn for a wake one, finishing and a turn for a busy one. */
  function Effort(phase: Phase): nat {
    if phase.Awake? then 1 else if phase.Running? then 2 else 0
  }

  function Efforts(ws: seq<Phase>): nat {
    if ws == [] then 0 else Efforts(ws[..|ws| - 1]) + Effort(ws[|ws| - 1])
  }

  lemma {:induction false} AwakeAfterPut(ws: seq<Phase>, w: nat, phase: Phase)
    requires w < |ws|
    ensures AwakeCount(ws[w := phase]) + One(ws[w].Awake?) == AwakeCount(ws) + One(phase.Awake?)
  {
    var n := |ws| - 1;
    if w == n {
      assert ws[w := phase][..n] == ws[..n];
    } else {
      AwakeAfterPut(ws[..n], w, phase);
      assert ws[w := phase][..n] == ws[..n][w := phase];
    }
  }

  lemma {:induction false} HeldAfterPut(ws: seq<Phase>, w: nat, phase: Phase, task: Task)
    requires w < |ws|
    ensures Held(ws[w := phase], task) + One(ws[w] == Running(task)) == Held(ws, task) + One(phase == Running(task))
  {
    var n := |ws| - 1;
    if w == n {
      assert ws[w := phase][..n] == ws[..n];
    } else {
      HeldAfterPut(ws[..n], w, phase, task);
      assert ws[w := phase][..n] == ws[..n][w := phase];
    }
  }

  lemma {:induction false} EffortsAfterPut(ws: seq<Phase>, w: nat, phase: Phase)
    requires w < |ws|
    ensures Efforts(ws[w := phase]) + Effort(ws[w]) == Efforts(ws) + Effort(phase)
  {
    var n := |ws| - 1;
    if w == n {
      assert ws[w := phase][..n] == ws[..n];
    } else {
      EffortsAfterPut(ws[..n], w, phase);
      assert ws[w := phase][..n] == ws[..n][w := phase];
    }
  }

  lemma {:induction false} HeldAfterWake(ws: seq<Phase>, task: Task)
    ensures Held(Woken(ws), task) == Held(ws, task)
  {
    if ws != [] {
      HeldAfterWake(ws[..|ws| - 1], task);
      assert Woken(ws)[..|ws| - 1] == Woken(ws[..|ws| - 1]);
    }
  }

  lemma {:induction false} EffortsAfterWake(ws: seq<Phase>)
    ensures Efforts(Woken(ws)) <= Efforts(ws) + |ws|
  {
    if ws != [] {
      EffortsAfterWake(ws[..|ws| - 1]);
      assert Woken(ws)[..|ws| - 1] == Woken(ws[..|ws| - 1]);
    }
  }

  // ---------- What every step keeps ----------

  /** Tasks are taken in the order in which they were accepted, and every taken task is in one
      worker's hands or finished, once. */
  ghost predicate Conserved(p: Pool) {
    && p.accepted == p.taken + p.queue
    && forall task :: Times(p.taken, task) == Held(p.workers, task) + Times(p.finished, task)
  }

  lemma ConservedAcquire(p: Pool, w: nat)
    requires Conserved(p) && Enabled(p, Acquire(w))
    ensures Conserved(Apply(p, Acquire(w)))
  {
    var p' := Apply(p, Acquire(w));
    if p.queue != [] {
      assert p.taken + p.queue == (p.taken + [p.queue[0]]) + p.queue[1..];
    }
    forall task ensures Times(p'.taken, task) == Held(p'.workers, task) + Times(p'.finished, task) {
      HeldAfterPut(p.workers, w, p'.workers[w], task);
      if p.queue != [] {
        TimesNext(p.taken, p.queue[0], task);
      }
    }
  }

  lemma ConservedFinish(p: Pool, w: nat)
    requires Conserved(p) && Enabled(p, Finish(w))
    ensures Conserved(Apply(p, Finish(w)))
  {
    var p' := Apply(p, Finish(w));
    forall task ensures Times(p'.taken, task) == Held(p'.workers, task) + Times(p'.finished, task) {
      HeldAfterPut(p.workers, w, Awake, task);
      TimesNext(p.finished, p.workers[w].task, task);
    }
  }

  lemma ConservedWake(p: Pool, w: nat)
    requires Conserved(p) && In(p, w, Asleep)
    ensures Conserved(Put(p, w, Awake))
  {
    forall task ensures Held(Put(p, w, Awake).workers, task) == Held(p.workers, task) {
      HeldAfterPut(p.workers, w, Awake, task);
    }
  }

  lemma ConservedWakeAll(p: Pool)
    requires Conserved(p)
    ensures Conserved(p.(workers := Woken(p.workers), owedAll := false))
  {
    forall task ensures Held(Woken(p.workers), task) == Held(p.workers, task) {
      HeldAfterWake(p.workers, task);
    }
  }

  lemma StepConserves(p: Pool, step: Step)
    requires Conserved(p) && Enabled(p, step)
    ensures Conserved(Apply(p, step))
  {
    match step
    case Enqueue(task) => assert p.taken + (p.queue + [task]) == (p.taken + p.queue) + [task];
    case Acquire(w) => ConservedAcquire(p, w);
    case Finish(w) => ConservedFinish(p, w);
    case NotifyOne(w) => ConservedWake(p, w);
    case WakeUp(w) => ConservedWake(p, w);
    case NotifyAll => ConservedWakeAll(p);
    case _ =>
  }

  /** While somebody sleeps, every queued task has a worker awake or a notification under way;
      after the stop, sleepers have one coming. */
  predicate NoWakeupLost(p: Pool) {
    !NobodyAsleep(p) ==> if p.stop then p.owedAll else |p.queue| <= p.owed + AwakeCount(p.workers)
  }

  /** Workers leave only after the stop and only an empty queue. */
  predicate NoneLeftEarly(p: Pool) {
    forall w :: 0 <= w < |p.workers| && p.workers[w] == Exited ==> p.stop && p.queue == []
  }

  lemma WakingKeeps(p: Pool, w: nat, owed: nat)
    requires NoWakeupLost(p) && w < |p.workers| && !p.workers[w].Awake?
    requires p.owed <= owed + 1
    ensures NoWakeupLost(Put(p, w, Awake).(owed := owed))
  {
    AwakeAfterPut(p.workers, w, Awake);
    if !NobodyAsleep(Put(p, w, Awake)) {
      var x :| 0 <= x < |p.workers| && Put(p, w, Awake).workers[x] == Asleep;
      assert p.workers[x] == Asleep;
    }
  }

  lemma AcquireKeeps(p: Pool, w: nat)
    requires NoWakeupLost(p) && Enabled(p, Acquire(w))
    ensures NoWakeupLost(Apply(p, Acquire(w)))
  {
    var p' := Apply(p, Acquire(w));
    AwakeAfterPut(p.workers, w, p'.workers[w]);
    if !NobodyAsleep(p') && p'.workers[w] != Asleep {
      var x :| 0 <= x < |p'.workers| && p'.workers[x] == Asleep;
      assert p.workers[x] == Asleep;
    }
  }

  lemma StepLosesNoWakeup(p: Pool, step: Step)
    requires NoWakeupLost(p) && Enabled(p, step)
    ensures NoWakeupLost(Apply(p, step))
  {
    match step
    case Acquire(w) => AcquireKeeps(p, w);
    case Finish(w) =>
      WakingKeeps(p, w, p.owed);
      assert Put(p, w, Awake).(owed := p.owed) == Put(p, w, Awake);
    case NotifyOne(w) => WakingKeeps(p, w, p.owed - 1);
    case WakeUp(w) =>
      WakingKeeps(p, w, p.owed);
      assert Put(p, w, Awake).(owed := p.owed) == Put(p, w, Awake);
    case _ =>
  }

  lemma StepLeavesNoneEarly(p: Pool, step: Step)
    requires NoneLeftEarly(p) && Enabled(p, step)
    ensures NoneLeftEarly(Apply(p, step))
  {}

  // ---------- Runs ----------

  datatype Run = Begin(asked: nat, hardware: nat) | Then(before: Run, step: Step)

  function End(run: Run): Pool {
    match run
    case Begin(asked, hardware) => Initial(asked, hardware)
    case Then(before, step) => if Enabled(End(before), step) then Apply(End(before), step) else End(before)
  }

  lemma {:induction false} NothingHeld(ws: seq<Phase>, task: Task)
    requires forall w :: 0 <= w < |ws| ==> !ws[w].Running?
    ensures Held(ws, task) == 0
  {
    if ws != [] {
      NothingHeld(ws[..|ws| - 1], task);
    }
  }

  lemma InitialInOrder(asked: nat, hardware: nat)
    ensures InOrder(Initial(asked, hardware))
  {
    var p := Initial(asked, hardware);
    forall task ensures Held(p.workers, task) == 0 {
      NothingHeld(p.workers, task);
    }
  }

  ghost predicate InOrder(p: Pool) {
    Conserved(p) && NoWakeupLost(p) && NoneLeftEarly(p) && |p.workers| >= 2
  }

  lemma StepKeeps(p: Pool, step: Step)
    requires InOrder(p) && Enabled(p, step)
    ensures InOrder(Apply(p, step))
  {
    StepConserves(p, step);
    StepLosesNoWakeup(p, step);
    StepLeavesNoneEarly(p, step);
  }

  /** Over every interleaving of producers, workers and the destructor. */
  lemma {:induction false} RunsKeep(run: Run)
    ensures InOrder(End(run))
  {
    match run
    case Begin(asked, hardware) => InitialInOrder(asked, hardware);
    case Then(before, step) =>
      RunsKeep(before);
      if Enabled(End(before), step) {
        StepKeeps(End(before), step);
      }
  }

  // ---------- Draining ----------

  /** The steps that need nobody from outside and happen by themselves. */
  predicate Internal(step: Step) {
    !step.Enqueue? && !step.Stop? && !step.WakeUp?
  }

  /** Nothing is left to happen by itself. */
  predicate Quiet(p: Pool) {
    p.owed == 0 && !p.owedAll && forall w :: 0 <= w < |p.workers| ==> p.workers[w] in {Asleep, Exited}
  }

  function Remaining(p: Pool): nat {
    2 * |p.queue| + 2 * p.owed + Efforts(p.workers) + if p.owedAll then |p.workers| + 1 else 0
  }

  /** Every internal step brings the end nearer ... */
  lemma InternalStepsEnd(p: Pool, step: Step)
    requires Enabled(p, step) && Internal(step)
    ensures Remaining(Apply(p, step)) < Remaining(p)
  {
    var p' := Apply(p, step);
    match step
    case Acquire(w) => EffortsAfterPut(p.workers, w, p'.workers[w]);
    case Finish(w) => EffortsAfterPut(p.workers, w, Awake);
    case NotifyOne(w) => EffortsAfterPut(p.workers, w, Awake);
    case NotifyAll => EffortsAfterWake(p.workers);
    case NotifyNobody =>
  }

  /** ... there is one unless the pool is quiet ... */
  lemma QuietOrNext(p: Pool) returns (step: Step)
    ensures Quiet(p) || (Internal(step) && Enabled(p, step))
  {
    step := NotifyAll;
    if p.owed > 0 {
      if w :| 0 <= w < |p.workers| && p.workers[w] == Asleep {
        step := NotifyOne(w);
      } else {
        step := NotifyNobody;
      }
    } else if w :| 0 <= w < |p.workers| && p.workers[w] == Awake {
      step := Acquire(w);
    } else if w :| 0 <= w < |p.workers| && p.workers[w].Running? {
      step := Finish(w);
    }
  }

  lemma {:induction false} NoneAwake(ws: seq<Phase>)
    requires forall w :: 0 <= w < |ws| ==> !ws[w].Awake?
    ensures AwakeCount(ws) == 0
  {
    if ws != [] {
      NoneAwake(ws[..|ws| - 1]);
    }
  }

  /** Every task ran as often as it was accepted. */
  ghost predicate AllDone(p: Pool) {
    p.queue == [] && forall task :: Times(p.finished, task) == Times(p.accepted, task)
  }

  lemma IdleAndEmptyIsDone(p: Pool)
    requires Conserved(p) && p.queue == [] && forall w :: 0 <= w < |p.workers| ==> !p.workers[w].Running?
    ensures AllDone(p)
  {
    assert p.taken + p.queue == p.taken;
    forall task ensures Times(p.finished, task) == Times(p.accepted, task) {
      NothingHeld(p.workers, task);
    }
  }

  /** ... and a quiet pool has run every accepted task exactly once, stopped or not. */
  lemma QuietMeansDone(run: Run)
    requires Quiet(End(run))
    ensures AllDone(End(run))
  {
    var p := End(run);
    RunsKeep(run);
    NoneAwake(p.workers);
    assert p.workers[0] in {Asleep, Exited};
    IdleAndEmptyIsDone(p);
  }

  /** After the destructor has joined its workers: no task is lost, none ran twice. */
  lemma JoinedMeansDone(run: Run)
    requires forall w :: 0 <= w < |End(run).workers| ==> End(run).workers[w] == Exited
    ensures AllDone(End(run)) && End(run).stop
  {
    var p := End(run);
    RunsKeep(run);
    assert p.workers[0] == Exited;
    IdleAndEmptyIsDone(p);
  }

  /** After the stop a quiet pool has no sleeper left, so the destructor's joins return. */
  lemma StoppedAndQuietIsJoined(run: Run)
    requires Quiet(End(run)) && End(run).stop
    ensures forall w :: 0 <= w < |End(run).workers| ==> End(run).workers[w] == Exited
  {
    RunsKeep(run);
  }

  /** The later run continues the earlier one by steps the pool takes by itself. */
  predicate RunsOn(late: Run, early: Run) {
    || late == early
    || (late.Then? && Internal(late.step) && Enabled(End(late.before), late.step) && RunsOn(late.before, early))
  }

  function Length(run: Run): nat {
    if run.Begin? then 0 else Length(run.before) + 1
  }

  /** However the pool runs on, it comes nearer to the end with every step, and it accepts and
      forgets nothing. */
  lemma {:induction false} RunsOnShortly(late: Run, early: Run)
    requires RunsOn(late, early)
    ensures Length(early) <= Length(late) <= Length(early) + Remaining(End(early)) - Remaining(End(late))
    ensures End(late).accepted == End(early).accepted && End(late).stop == End(early).stop
  {
    if late != early {
      RunsOnShortly(late.before, early);
      InternalStepsEnd(End(late.before), late.step);
    }
  }

  lemma {:induction false} RunsOnFurther(late: Run, mid: Run, early: Run)
    requires RunsOn(late, mid) && RunsOn(mid, early)
    ensures RunsOn(late, early)
  {
    if late != mid {
      RunsOnFurther(late.before, mid, early);
    }
  }

  /** From anywhere, however the pool has run on by itself so far, it can go on to a quiet pool
      with all of the accepted tasks done; and as no way of running on is longer than what
      remains, every one that does not stop before ends there. */
  lemma {:induction false} Drains(run: Run) returns (drained: Run)
    ensures RunsOn(drained, run) && Quiet(End(drained)) && AllDone(End(drained))
    ensures End(drained).accepted == End(run).accepted
    ensures Length(drained) <= Length(run) + Remaining(End(run))
    decreases Remaining(End(run))
  {
    var step := QuietOrNext(End(run));
    if Quiet(End(run)) {
      drained := run;
      QuietMeansDone(run);
    } else {
      InternalStepsEnd(End(run), step);
      drained := Drains(Then(run, step));
      RunsOnFurther(drained, Then(run, step), run);
      RunsOnShortly(drained, run);
    }
  }

  /** So every run that can not be continued by itself any more has done everything, and it got
      there in no more steps than remained. */
  lemma StuckMeansDone(late: Run, early: Run)
    requires RunsOn(late, early) && forall step :: Internal(step) ==> !RunsOn(Then(late, step), early)
    ensures AllDone(End(late)) && End(late).accepted == End(early).accepted
    ensures Length(late) <= Length(early) + Remaining(End(early))
  {
    var step := QuietOrNext(End(late));
    RunsOnShortly(late, early);
    assert Quiet(End(late)) || RunsOn(Then(late, step), early);
    QuietMeansDone(late);
  }

  /** First in, first out: what has been taken is the beginning of what was accepted. */
  lemma TakenInOrder(run: Run)
    ensures End(run).taken <= End(run).accepted
  {
    RunsKeep(run);
  }
}
