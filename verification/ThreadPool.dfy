/**
 The thread pool of misc/ngx_c_threadpool.cpp as a state machine: workers, a manager that decides on a
 snapshot taken before it let go of the lock, and submitters that do not take that lock at all.
 Each event is one stretch of code between two points where another thread can get in.
 */
module ThreadPool {

  type Task = nat
  type WorkerId = nat

  /** Where a worker is: outside CThreadMutex; holding it before the wait predicate; holding it with the
      predicate true; inside a task; returned. */
  datatype Pc = Outside | Checking | Passed | Running(task: Task) | Exited

  /** The manager sleeps, or is about to act on its snapshot. `exits` counts the workers that have left
      since, and `exitAt` is exitNum at the snapshot; the source keeps neither. */
  datatype Manager = Asleep | Deciding(busy: int, live: int, tasks: nat, exits: nat, exitAt: int)

  datatype Holder = Free | Held(w: WorkerId)

  datatype Pool = Pool(
    min: nat, max: nat,
    busy: int, live: int, exit: int,
    queue: seq<Task>, pcs: seq<Pc>, mutex: Holder, manager: Manager,
    submitted: seq<Task>, started: seq<Task>, failures: nat)

  datatype Event = Submit(t: Task) | Lock(w: WorkerId) | Check(w: WorkerId) | Leave(w: WorkerId)
                 | Take(w: WorkerId) | Finish(w: WorkerId) | Snapshot | Decide

  const STEP := 2  // OnceCreateNum and OnceDestroyNum

  function Start(min: nat, max: nat): Pool
    requires min <= max
  {
    Pool(min, max, 0, min, 0, [], seq(min, _ => Outside), Free, Asleep, [], [], 0)
  }

  // ----- The manager's decision -----

  predicate Grows(p: Pool) { p.manager.Deciding? && p.manager.live < p.max && p.manager.tasks != 0 }

  predicate Shrinks(p: Pool) {
    p.manager.Deciding? && !Grows(p) && p.manager.live > p.min && p.manager.busy * 2 < p.manager.live
  }

  function Created(p: Pool): nat
    requires Grows(p)
  {
    if p.manager.live + STEP <= p.max then STEP else p.max - p.manager.live
  }

  function Surplus(p: Pool): nat
    requires Shrinks(p)
  {
    if p.manager.live - STEP >= p.min then STEP else p.manager.live - p.min
  }

  // ----- Steps -----

  predicate At(p: Pool, w: WorkerId, pc: Pc) { w < |p.pcs| && p.pcs[w] == pc }

  predicate Enabled(p: Pool, e: Event) {
    match e
    case Submit(_) => true
    case Lock(w) => At(p, w, Outside) && p.mutex.Free?
    case Check(w) => At(p, w, Checking)
    case Leave(w) => At(p, w, Passed) && p.exit > 0
    case Take(w) => At(p, w, Passed) && p.exit <= 0
    case Finish(w) => w < |p.pcs| && p.pcs[w].Running? && p.mutex.Free?
    case Snapshot => p.manager.Asleep? && p.min < p.max && p.mutex.Free?
    case Decide => p.manager.Deciding? && (Grows(p) || Shrinks(p) ==> p.mutex.Free?)
  }

  function Move(p: Pool, w: WorkerId, pc: Pc, mutex: Holder): Pool
    requires w < |p.pcs|
  {
    p.(pcs := p.pcs[w := pc], mutex := mutex)
  }

  function Step(p: Pool, e: Event): Pool
    requires Enabled(p, e)
  {
    match e
    case Submit(t) => p.(queue := p.queue + [t], submitted := p.submitted + [t])
    case Lock(w) => Move(p, w, Checking, Held(w))
    case Check(w) =>
      if p.queue != [] || p.exit > 0 then Move(p, w, Passed, p.mutex) else Move(p, w, Outside, Free)
    case Leave(w) =>
      Move(p, w, Exited, Free).(exit := p.exit - 1, live := p.live - 1,
        manager := if p.manager.Deciding? then p.manager.(exits := p.manager.exits + 1) else Asleep)
    case Take(w) =>
      if p.queue == [] then Move(p, w, Outside, Free).(failures := p.failures + 1)
      else Move(p, w, Running(p.queue[0]), Free).(busy := p.busy + 1, queue := p.queue[1..],
                                                   started := p.started + [p.queue[0]])
    case Finish(w) => Move(p, w, Outside, Free).(busy := p.busy - 1)
    case Snapshot => p.(manager := Deciding(p.busy, p.live, |p.queue|, 0, p.exit))
    case Decide =>
      if Grows(p) then
        p.(manager := Asleep, live := p.live + Created(p), pcs := p.pcs + seq(Created(p), _ => Outside))
      else if Shrinks(p) then p.(manager := Asleep, exit := Surplus(p))
      else p.(manager := Asleep)
  }

  predicate LegalRun(p: Pool, es: seq<Event>)
    decreases |es|
  {
    es == [] || (Enabled(p, es[0]) && LegalRun(Step(p, es[0]), es[1..]))
  }

  function Run(p: Pool, es: seq<Event>): Pool
    requires LegalRun(p, es)
    decreases |es|
  {
    if es == [] then p else Run(Step(p, es[0]), es[1..])
  }

  // ----- Counting workers -----

  function Count(pcs: seq<Pc>, f: Pc -> bool): nat {
    if pcs == [] then 0 else (if f(pcs[0]) then 1 else 0) + Count(pcs[1..], f)
  }

  predicate Alive(pc: Pc) { pc != Exited }

  predicate InTask(pc: Pc) { pc.Running? }

  lemma {:induction false} CountUpdate(pcs: seq<Pc>, f: Pc -> bool, w: WorkerId, pc: Pc)
    requires w < |pcs|
    ensures Count(pcs[w := pc], f) == Count(pcs, f) - (if f(pcs[w]) then 1 else 0) + (if f(pc) then 1 else 0)
  {
    if w > 0 {
      CountUpdate(pcs[1..], f, w - 1, pc);
      assert pcs[w := pc][1..] == pcs[1..][w - 1 := pc];
    } else {
      assert pcs[w := pc][1..] == pcs[1..];
    }
  }

  lemma {:induction false} CountAppend(pcs: seq<Pc>, f: Pc -> bool, n: nat, pc: Pc)
    ensures Count(pcs + seq(n, _ => pc), f) == Count(pcs, f) + (if f(pc) then n else 0)
    decreases |pcs|, n
  {
    var more := seq(n, _ => pc);
    if pcs != [] {
      assert (pcs + more)[1..] == pcs[1..] + more;
      CountAppend(pcs[1..], f, n, pc);
    } else if n > 0 {
      assert pcs + more == more && more[1..] == pcs + seq(n - 1, _ => pc);
      CountAppend(pcs, f, n - 1, pc);
    }
  }

  // ----- What holds in every interleaving -----

  /** liveNum and busyNum count workers. */
  predicate Counted(p: Pool) {
    p.live == Count(p.pcs, Alive) && p.busy == Count(p.pcs, InTask)
  }

  /** Submission order is start order, with the queue in between; no task is lost, invented or started twice. */
  predicate Fifo(p: Pool) { p.submitted == p.started + p.queue }

  /** Only the holder of CThreadMutex is past it, so a true predicate stays true until the holder acts. */
  predicate Guarded(p: Pool) {
    && (forall w :: 0 <= w < |p.pcs| ==> (p.pcs[w] == Checking || p.pcs[w] == Passed <==> p.mutex == Held(w)))
    && (p.mutex.Held? ==> p.mutex.w < |p.pcs|)
    && (forall w :: 0 <= w < |p.pcs| && p.pcs[w] == Passed && p.exit <= 0 ==> p.queue != [])
    && p.failures == 0
  }

  /** The snapshot is stale only by the workers that have left since. */
  predicate Bounded(p: Pool) {
    && p.min <= p.max && p.live <= p.max && p.exit >= 0
    && (p.manager.Deciding? ==>
          p.manager.live == p.live + p.manager.exits <= p.max && p.exit == p.manager.exitAt - p.manager.exits)
  }

  predicate Inv(p: Pool) { Counted(p) && Fifo(p) && Guarded(p) && Bounded(p) }

  lemma StartInv(min: nat, max: nat)
    requires min <= max
    ensures Inv(Start(min, max))
  {
    StartCounted(min);
  }

  lemma StartCounted(min: nat)
    ensures Count(seq(min, _ => Outside), Alive) == min && Count(seq(min, _ => Outside), InTask) == 0
  {
    assert [] + seq(min, _ => Outside) == seq(min, _ => Outside);
    CountAppend([], Alive, min, Outside);
    CountAppend([], InTask, min, Outside);
  }

  lemma StepCounted(p: Pool, e: Event)
    requires Inv(p) && Enabled(p, e)
    ensures Counted(Step(p, e))
  {
    var q := Step(p, e);
    match e
    case Submit(_) =>
    case Snapshot =>
    case Decide =>
      if Grows(p) {
        CountAppend(p.pcs, Alive, Created(p), Outside);
        CountAppend(p.pcs, InTask, Created(p), Outside);
      }
    case Lock(w) => CountUpdate(p.pcs, Alive, w, q.pcs[w]); CountUpdate(p.pcs, InTask, w, q.pcs[w]);
    case Check(w) => CountUpdate(p.pcs, Alive, w, q.pcs[w]); CountUpdate(p.pcs, InTask, w, q.pcs[w]);
    case Leave(w) => CountUpdate(p.pcs, Alive, w, q.pcs[w]); CountUpdate(p.pcs, InTask, w, q.pcs[w]);
    case Take(w) => CountUpdate(p.pcs, Alive, w, q.pcs[w]); CountUpdate(p.pcs, InTask, w, q.pcs[w]);
    case Finish(w) => CountUpdate(p.pcs, Alive, w, q.pcs[w]); CountUpdate(p.pcs, InTask, w, q.pcs[w]);
  }

  lemma StepGuarded(p: Pool, e: Event)
    requires Inv(p) && Enabled(p, e)
    ensures Guarded(Step(p, e))
  {}

  lemma StepFifoBounded(p: Pool, e: Event)
    requires Inv(p) && Enabled(p, e)
    ensures Fifo(Step(p, e)) && Bounded(Step(p, e))
  {}

  lemma StepKeepsInv(p: Pool, e: Event)
    requires Inv(p) && Enabled(p, e)
    ensures Inv(Step(p, e))
  {
    StepCounted(p, e);
    StepGuarded(p, e);
    StepFifoBounded(p, e);
  }

  lemma {:induction false} RunKeepsInv(p: Pool, es: seq<Event>)
    requires Inv(p) && LegalRun(p, es)
    ensures Inv(Run(p, es))
    decreases |es|
  {
    if es != [] {
      StepKeepsInv(p, es[0]);
      RunKeepsInv(Step(p, es[0]), es[1..]);
    }
  }

  /** Every interleaving, from the constructor on. */
  lemma EveryInterleaving(min: nat, max: nat, es: seq<Event>)
    requires min <= max && LegalRun(Start(min, max), es)
    ensures var p := Run(Start(min, max), es);
      && 0 <= p.live <= p.max
      && p.busy == Count(p.pcs, InTask) && p.live == Count(p.pcs, Alive)
      && p.submitted == p.started + p.queue
      && p.failures == 0
  {
    StartInv(min, max);
    RunKeepsInv(Start(min, max), es);
  }

  // ----- What the manager does -----

  /** No snapshot and no decision: what other threads do while the manager is between the two. */
  predicate Meanwhile(es: seq<Event>) { forall e :: e in es ==> e != Snapshot && e != Decide }

  /** The snapshot is what was counted, whatever happens before the decision. */
  lemma {:induction false} SnapshotStays(p: Pool, es: seq<Event>)
    requires p.manager.Deciding? && LegalRun(p, es) && Meanwhile(es)
    ensures var q := Run(p, es);
      && q.manager.Deciding? && q.min == p.min && q.max == p.max
      && q.manager.busy == p.manager.busy && q.manager.live == p.manager.live && q.manager.tasks == p.manager.tasks
    decreases |es|
  {
    if es != [] {
      assert forall e :: e in es[1..] ==> e in es;
      assert es[0] in es;
      SnapshotStays(Step(p, es[0]), es[1..]);
    }
  }

  function Min(a: int, b: int): int { if a <= b then a else b }

  /** Over every run with a snapshot taken in p, anything by other threads, and the decision: new workers come, two or
      as many as maxNum allows, iff at the snapshot tasks were waiting and fewer than maxNum workers were alive; and
      otherwise workers are asked to leave, two or as many as there were above minNum, iff fewer than half of the
      workers then alive were in a task. */
  lemma ManagerReacts(p: Pool, es: seq<Event>, q: Pool)
    requires Inv(p) && Enabled(p, Snapshot) && LegalRun(Step(p, Snapshot), es) && Meanwhile(es)
    requires q == Run(Step(p, Snapshot), es) && Enabled(q, Decide)
    ensures var alive, busy, d := Count(p.pcs, Alive), Count(p.pcs, InTask), Step(q, Decide);
      var more := if alive < p.max && p.queue != [] then Min(2, p.max - alive) else 0;
      && d.live == q.live + more && |d.pcs| == |q.pcs| + more && d.queue == q.queue
      && d.exit == if more == 0 && alive > p.min && 2 * busy < alive then Min(2, alive - p.min) else q.exit
  {
    SnapshotStays(Step(p, Snapshot), es);
  }

  // ----- The lower bound -----

  /** Even after all workers asked to leave have left, minNum remain. */
  predicate Low(p: Pool) { p.live - p.exit >= p.min }

  /** How many workers above minNum a shrink decision leaves, going by its snapshot. */
  function Spare(p: Pool): nat
    requires Shrinks(p)
  {
    p.manager.live - Surplus(p) - p.min
  }

  predicate StaysLow(p: Pool, es: seq<Event>)
    requires LegalRun(p, es)
    decreases |es|
  {
    Low(p) && (es != [] ==> StaysLow(Step(p, es[0]), es[1..]))
  }

  /** The workers that have left since the last snapshot. */
  function LeftSince(e: Event, left: nat): nat {
    match e case Snapshot => 0 case Leave(_) => left + 1 case _ => left
  }

  /** A property of the schedule: between a snapshot and the shrink decision made on it, no more workers leave than the
      decision leaves to spare. `left` of them have left already. */
  predicate Spared(p: Pool, es: seq<Event>, left: nat)
    requires LegalRun(p, es)
    decreases |es|
  {
    es != [] ==>
      && (es[0] == Decide && Shrinks(p) ==> left <= Spare(p))
      && Spared(Step(p, es[0]), es[1..], LeftSince(es[0], left))
  }

  /** The count of exits since the snapshot is the one a schedule shows. */
  predicate Counts(p: Pool, left: nat) { p.manager.Deciding? ==> p.manager.exits == left }

  lemma StepLowIff(p: Pool, e: Event, left: nat)
    requires Inv(p) && Low(p) && Enabled(p, e) && Counts(p, left)
    ensures Low(Step(p, e)) <==> (e == Decide && Shrinks(p) ==> left <= Spare(p))
    ensures Counts(Step(p, e), LeftSince(e, left))
  {}

  /** Over whole runs the lower bound holds throughout iff the schedule spares it. */
  lemma {:induction false} LowerBoundIff(p: Pool, es: seq<Event>, left: nat)
    requires Inv(p) && Low(p) && LegalRun(p, es) && Counts(p, left)
    ensures StaysLow(p, es) <==> Spared(p, es, left)
    decreases |es|
  {
    if es != [] {
      StepKeepsInv(p, es[0]);
      StepLowIff(p, es[0], left);
      if Low(Step(p, es[0])) {
        LowerBoundIff(Step(p, es[0]), es[1..], LeftSince(es[0], left));
      }
    }
  }

  /** Every shrink decision of the run rests on a snapshot that saw no exit outstanding. */
  predicate FreshDecisions(p: Pool, es: seq<Event>)
    requires LegalRun(p, es)
    decreases |es|
  {
    es != [] ==>
      && (es[0] == Decide && Shrinks(p) ==> p.manager.exitAt == 0)
      && FreshDecisions(Step(p, es[0]), es[1..])
  }

  /** Such runs keep the lower bound. */
  lemma {:induction false} FreshSnapshotSafe(p: Pool, es: seq<Event>)
    requires Inv(p) && Low(p) && LegalRun(p, es) && FreshDecisions(p, es)
    ensures StaysLow(p, es)
    decreases |es|
  {
    if es != [] {
      StepKeepsInv(p, es[0]);
      StepLowIff(p, es[0], if p.manager.Deciding? then p.manager.exits else 0);
      FreshSnapshotSafe(Step(p, es[0]), es[1..]);
    }
  }

  // ----- Which pools keep the lower bound -----

  /** With minNum equal to maxNum the manager never acts. */
  predicate Fixed(p: Pool) { p.min == p.max == p.live && p.exit == 0 && p.manager == Asleep }

  lemma {:induction false} FixedStaysLow(p: Pool, es: seq<Event>)
    requires Fixed(p) && LegalRun(p, es)
    ensures StaysLow(p, es)
    decreases |es|
  {
    if es != [] {
      FixedStaysLow(Step(p, es[0]), es[1..]);
    }
  }

  lemma {:induction false} EndsLow(p: Pool, es: seq<Event>)
    requires LegalRun(p, es) && StaysLow(p, es)
    ensures Low(Run(p, es))
    decreases |es|
  {
    if es != [] {
      EndsLow(Step(p, es[0]), es[1..]);
    }
  }

  ghost predicate AlwaysLow(p: Pool) {
    forall es :: LegalRun(p, es) ==> StaysLow(p, es)
  }

  lemma LowWhereverReached(p: Pool, q: Pool)
    requires AlwaysLow(p) && Reaches(p, q)
    ensures Low(q)
  {
    var es :| LegalRun(p, es) && Run(p, es) == q;
    EndsLow(p, es);
  }

  /** All runs of a pool keep the lower bound iff it can neither grow nor shrink. */
  lemma LowerBoundSoundIff(min: nat, max: nat)
    requires min <= max
    ensures AlwaysLow(Start(min, max)) <==> min == max
  {
    var start := Start(min, max);
    if min == max {
      forall es | LegalRun(start, es)
        ensures StaysLow(start, es)
      {
        FixedStaysLow(start, es);
      }
    } else {
      LowerBoundFails(min, max);
      var p :| Reaches(start, p) && !Low(p);
      if AlwaysLow(start) {
        LowWhereverReached(start, p);
      }
    }
  }

  ghost predicate Reaches(p: Pool, q: Pool) {
    exists es :: LegalRun(p, es) && Run(p, es) == q
  }

  lemma ReachesSelf(p: Pool)
    ensures Reaches(p, p)
  {
    assert LegalRun(p, []) && Run(p, []) == p;
  }

  lemma ReachesNext(p: Pool, q: Pool, e: Event, r: Pool)
    requires Reaches(p, q) && Enabled(q, e) && r == Step(q, e)
    ensures Reaches(p, r)
  {
    var es :| LegalRun(p, es) && Run(p, es) == q;
    RunSnoc(p, es, e);
  }

  lemma {:induction false} RunSnoc(p: Pool, es: seq<Event>, e: Event)
    requires LegalRun(p, es) && Enabled(Run(p, es), e)
    ensures LegalRun(p, es + [e]) && Run(p, es + [e]) == Step(Run(p, es), e)
    decreases |es|
  {
    if es == [] {
      assert es + [e] == [e] && [e][1..] == [];
    } else {
      assert (es + [e])[1..] == es[1..] + [e];
      RunSnoc(Step(p, es[0]), es[1..], e);
    }
  }

  /** The bound does fail, whenever minNum is below maxNum: a second shrink decision, on a snapshot from before a worker
      left, asks for one worker too many to leave. */
  lemma LowerBoundFails(min: nat, max: nat)
    requires min < max
    ensures exists p :: Reaches(Start(min, max), p) && !Low(p)
  {
    var start := Start(min, max);
    var grown := Growing(start, min, max);
    var idle := Idling(start, grown);
    var shrunk := Shrinking(start, idle);
    var failed := ShrinkingAgain(start, shrunk);
  }

  /** One batch of workers more than minNum, all outside the mutex. */
  function Grown(min: nat, max: nat, queue: seq<Task>, started: seq<Task>): Pool
    requires min < max
  {
    var n := if min + STEP <= max then min + STEP else max;
    Pool(min, max, 0, n, 0, queue, seq(n, _ => Outside), Free, Asleep, started + queue, started, 0)
  }

  lemma Growing(start: Pool, min: nat, max: nat) returns (p: Pool)
    requires min < max && start == Start(min, max)
    ensures Reaches(start, p) && p == Grown(min, max, [7], [])
  {
    ReachesSelf(start);
    var p1 := Step(start, Submit(7));
    ReachesNext(start, start, Submit(7), p1);
    var p2 := Step(p1, Snapshot);
    ReachesNext(start, p1, Snapshot, p2);
    p := Step(p2, Decide);
    assert p.pcs == Grown(min, max, [7], []).pcs;
    ReachesNext(start, p2, Decide, p);
  }

  lemma Idling(start: Pool, p0: Pool) returns (p: Pool)
    requires p0.min < p0.max && p0 == Grown(p0.min, p0.max, [7], []) && Reaches(start, p0)
    ensures Reaches(start, p) && p == Grown(p0.min, p0.max, [], [7])
  {
    var p1 := Step(p0, Lock(0));
    ReachesNext(start, p0, Lock(0), p1);
    var p2 := Step(p1, Check(0));
    ReachesNext(start, p1, Check(0), p2);
    var p3 := Step(p2, Take(0));
    ReachesNext(start, p2, Take(0), p3);
    p := Step(p3, Finish(0));
    assert p.pcs == p0.pcs;
    ReachesNext(start, p3, Finish(0), p);
  }

  /** As many workers asked to leave as had been added. */
  function Shrunk(min: nat, max: nat): Pool
    requires min < max
  {
    var p := Grown(min, max, [], [7]);
    p.(exit := p.live - min)
  }

  lemma Shrinking(start: Pool, p0: Pool) returns (p: Pool)
    requires p0.min < p0.max && p0 == Grown(p0.min, p0.max, [], [7]) && Reaches(start, p0)
    ensures Reaches(start, p) && p == Shrunk(p0.min, p0.max)
  {
    var p1 := Step(p0, Snapshot);
    ReachesNext(start, p0, Snapshot, p1);
    p := Step(p1, Decide);
    ReachesNext(start, p1, Decide, p);
  }

  lemma ShrinkingAgain(start: Pool, p0: Pool) returns (p: Pool)
    requires p0.min < p0.max && p0 == Shrunk(p0.min, p0.max) && Reaches(start, p0)
    ensures Reaches(start, p) && !Low(p)
  {
    var p1 := Step(p0, Snapshot);
    ReachesNext(start, p0, Snapshot, p1);
    var p2 := Step(p1, Lock(0));
    ReachesNext(start, p1, Lock(0), p2);
    var p3 := Step(p2, Check(0));
    ReachesNext(start, p2, Check(0), p3);
    var p4 := Step(p3, Leave(0));
    ReachesNext(start, p3, Leave(0), p4);
    p := Step(p4, Decide);
    ReachesNext(start, p4, Decide, p);
  }

  // ----- The class of the source -----

  class Threads {
    const minNum: nat
    const maxNum: nat
    var busyNum: int
    var liveNum: int
    var exitNum: int
    var taskBuf: seq<Task>
    var workers: seq<Pc>
    var mutex: Holder
    var manager: Manager
    ghost var submitted: seq<Task>
    ghost var started: seq<Task>
    ghost var failures: nat

    ghost function View(): Pool
      reads this
    {
      Pool(minNum, maxNum, busyNum, liveNum, exitNum, taskBuf, workers, mutex, manager, submitted, started, failures)
    }

    constructor (min: nat, max: nat)
      requires min <= max
      ensures View() == Start(min, max) && Inv(View())
    {
      minNum, maxNum, busyNum, liveNum, exitNum := min, max, 0, min, 0;
      taskBuf, workers, mutex, manager := [], seq(min, _ => Outside), Free, Asleep;
      submitted, started, failures := [], [], 0;
      new;
      StartInv(min, max);
    }

    method AddTask(t: Task)
      modifies this
      ensures View() == Step(old(View()), Submit(t))
    {
      taskBuf := taskBuf + [t];
      submitted := submitted + [t];
    }

    /** The worker gets CThreadMutex, for the first time or on waking up. */
    method Acquire(w: WorkerId)
      requires Enabled(View(), Lock(w))
      modifies this
      ensures View() == Step(old(View()), Lock(w))
    {
      mutex, workers := Held(w), workers[w := Checking];
    }

    /** The predicate of NotEmpty.wait; a false one gives the mutex back. */
    method Wait(w: WorkerId)
      requires Enabled(View(), Check(w))
      modifies this
      ensures View() == Step(old(View()), Check(w))
    {
      if |taskBuf| > 0 || exitNum > 0 {
        workers := workers[w := Passed];
      } else {
        mutex, workers := Free, workers[w := Outside];
      }
    }

    /** GetTask. */
    method GetTask() returns (ok: bool, task: Task)
      modifies this`taskBuf
      ensures ok == (old(taskBuf) != [])
      ensures ok ==> [task] + taskBuf == old(taskBuf)
      ensures !ok ==> taskBuf == old(taskBuf)
    {
      if taskBuf == [] {
        return false, 0;
      }
      ok, task := true, taskBuf[0];
      taskBuf := taskBuf[1..];
    }

    /** What the worker does once past the wait: leave if asked to, else take a task. In states every
        interleaving reaches, taking never fails. */
    method Proceed(w: WorkerId) returns (ok: bool)
      requires At(View(), w, Passed) && Inv(View())
      modifies this
      ensures old(exitNum) > 0 ==> View() == Step(old(View()), Leave(w))
      ensures old(exitNum) <= 0 ==> View() == Step(old(View()), Take(w))
      ensures ok
    {
      ok := true;
      mutex := Free;
      if exitNum > 0 {
        exitNum, liveNum, workers := exitNum - 1, liveNum - 1, workers[w := Exited];
        if manager.Deciding? {
          manager := manager.(exits := manager.exits + 1);
        }
      } else {
        var task;
        ok, task := GetTask();
        if !ok {
          assert false;  // "Get Task failed"
        }
        busyNum, workers := busyNum + 1, workers[w := Running(task)];
        started := started + [task];
      }
    }

    method Finished(w: WorkerId)
      requires Enabled(View(), Finish(w))
      modifies this
      ensures View() == Step(old(View()), Finish(w))
    {
      busyNum, workers, mutex := busyNum - 1, workers[w := Outside], Free;
    }

    method TakeSnapshot()
      requires Enabled(View(), Snapshot)
      modifies this
      ensures View() == Step(old(View()), Snapshot)
    {
      manager := Deciding(busyNum, liveNum, |taskBuf|, 0, exitNum);
    }

    method CreateThreads(n: nat)
      modifies this`workers, this`liveNum
      ensures workers == old(workers) + seq(n, _ => Outside) && liveNum == old(liveNum) + n
    {
      for i := 0 to n
        invariant workers == old(workers) + seq(i, _ => Outside) && liveNum == old(liveNum) + i
      {
        workers := workers + [Outside];
        liveNum := liveNum + 1;
      }
    }

    /** The manager acts on its snapshot, taken under a lock it has since given back. */
    method ActOnSnapshot()
      requires Enabled(View(), Decide) && Bounded(View())
      modifies this
      ensures View() == Step(old(View()), Decide)
    {
      var busy, live, tasknum := manager.busy, manager.live, manager.tasks;
      if live < maxNum && tasknum != 0 {
        var count := live + STEP;
        if count <= maxNum {
          CreateThreads(STEP);
        } else {
          CreateThreads(maxNum - live);
        }
      } else if live > minNum && busy * 2 < live {
        var count := live - STEP;
        if count >= minNum {
          exitNum := STEP;
        } else {
          exitNum := live - minNum;
        }
      }
      manager := Asleep;
    }
  }
}
