/** The ctpl thread pool as a step relation: workers, pushing clients, and the thread that calls resize and stop. */
module ThreadPool {
  import opened Options

  type Task = nat
  type Id = nat

  /** Where a worker's loop stands. The states from Entering to Sleepy, and Resumed to Unlocking, hold the mutex. */
  datatype WorkerPc =
    | Starting                       // before the first q.pop
    | Popping                        // before q.pop in the inner loop
    | Running(task: Task)            // executing the popped function
    | Finished                       // before the test of the flag
    | Locking                        // before unique_lock
    | Entering                       // before ++nWaiting
    | Arriving                       // cv.wait: first evaluation of the predicate
    | CheckDone                      // q.pop failed, before reading isDone
    | CheckFlag                      // isDone was false, before reading the flag
    | Sleepy                         // the predicate is false, before blocking
    | Sleeping                       // blocked and not notified
    | Woken                          // notified, waiting for the mutex
    | Resumed                        // the predicate is evaluated again
    | Leaving(got: Option<Task>)     // the predicate is true, before --nWaiting
    | Unlocking(got: Option<Task>)   // before the lock goes out of scope
    | Exited

  datatype Worker = Worker(pc: WorkerPc, flag: bool)

  /** A client inside push: the function is queued; the mutex is held; notify_one has been called. */
  datatype PusherPc = Pushed | Holding | Notified

  datatype Next = Truncate(n: nat) | Join

  /** The calling thread inside resize or stop. */
  datatype ControlPc =
    | Idle
    | Growing(n: nat)
    | Shrinking(n: nat, i: nat)
    | Flagging(i: nat)
    | Clearing
    | BeforeNotify(next: Next)
    | HoldNotify(next: Next)
    | AfterNotify(next: Next)
    | Joining(i: nat)
    | FinalClearing

  datatype Owner = Free | ByWorker(w: Id) | ByPusher(p: Id) | ByControl

  datatype Pool = Pool(
    queue: seq<Task>,
    workers: map<Id, Worker>,        // every thread ever started
    threads: seq<Id>,                // the vector of threads not yet given up
    pushers: map<Id, PusherPc>,      // the clients inside push
    control: ControlPc,
    mutex: Owner,
    isDone: bool,
    isStop: bool,
    nWaiting: int,
    pushed: set<Task>,
    executed: seq<Task>,
    cleared: seq<Task>)

  datatype Action =
    | Pop(w: Id) | Execute(w: Id) | TestFlag(w: Id) | Lock(w: Id) | Enter(w: Id) | Check(w: Id)
    | ReadDone(w: Id) | ReadFlag(w: Id) | Sleep(w: Id) | Spurious(w: Id) | Resume(w: Id) | Leave(w: Id) | Unlock(w: Id)
    | Push(p: Id, t: Task) | PushLock(p: Id) | NotifyOne(p: Id, woken: Option<Id>) | PushUnlock(p: Id)
    | Resize(n: nat) | Spawn(w: Id) | Grown | FlagOff | Shrunk
    | Stop(isWait: bool) | FlagOn | Flagged | ClearOne | Cleared
    | ControlLock | NotifyAll | ControlUnlock | JoinOne | Joined
    | Take                           // a client calls pop or clear_queue

  const INIT := Pool([], map[], [], map[], Idle, Free, false, false, 0, {}, [], [])

  predicate At(s: Pool, w: Id, pc: WorkerPc) { w in s.workers && s.workers[w].pc == pc }

  predicate IsWorkerAction(a: Action) {
    a.Pop? || a.Execute? || a.TestFlag? || a.Lock? || a.Enter? || a.Check? || a.ReadDone? || a.ReadFlag?
    || a.Sleep? || a.Spurious? || a.Resume? || a.Leave? || a.Unlock?
  }

  predicate WorkerEnabled(s: Pool, a: Action)
    requires IsWorkerAction(a)
  {
    a.w in s.workers &&
    var pc := s.workers[a.w].pc;
    match a
    case Pop(_) => pc.Starting? || pc.Popping?
    case Execute(_) => pc.Running?
    case TestFlag(_) => pc.Finished?
    case Lock(_) => pc.Locking? && s.mutex.Free?
    case Enter(_) => pc.Entering?
    case Check(_) => pc.Arriving? || pc.Resumed?
    case ReadDone(_) => pc.CheckDone?
    case ReadFlag(_) => pc.CheckFlag?
    case Sleep(_) => pc.Sleepy?
    case Spurious(_) => pc.Sleeping?
    case Resume(_) => pc.Woken? && s.mutex.Free?
    case Leave(_) => pc.Leaving?
    case Unlock(_) => pc.Unlocking?
  }

  function Move(s: Pool, w: Id, pc: WorkerPc): Pool
    requires w in s.workers
  {
    s.(workers := s.workers[w := s.workers[w].(pc := pc)])
  }

  /** The action pops the head of the queue. */
  predicate TakesHead(s: Pool, a: Action) { (a.Pop? || a.Check?) && s.queue != [] }

  /** Where the worker stands afterwards. */
  function NewPc(s: Pool, a: Action): WorkerPc
    requires IsWorkerAction(a) && WorkerEnabled(s, a)
  {
    var me := s.workers[a.w];
    match a
    case Pop(_) => if s.queue == [] then Locking else Running(s.queue[0])
    case Execute(_) => Finished
    case TestFlag(_) => if me.flag then Exited else Popping
    case Lock(_) => Entering
    case Enter(_) => Arriving
    case Check(_) => if s.queue == [] then CheckDone else Leaving(Some(s.queue[0]))
    case ReadDone(_) => if s.isDone then Leaving(None) else CheckFlag
    case ReadFlag(_) => if me.flag then Leaving(None) else Sleepy
    case Sleep(_) => Sleeping
    case Spurious(_) => Woken
    case Resume(_) => Resumed
    case Leave(_) => Unlocking(me.pc.got)
    case Unlock(_) => if me.pc.got.Some? then Running(me.pc.got.value) else Exited
  }

  function WorkerStep(s: Pool, a: Action): Pool
    requires IsWorkerAction(a) && WorkerEnabled(s, a)
  {
    Move(s, a.w, NewPc(s, a)).(
      queue := if TakesHead(s, a) then s.queue[1..] else s.queue,
      executed := if a.Execute? then s.executed + [s.workers[a.w].pc.task] else s.executed,
      nWaiting := s.nWaiting + (if a.Enter? then 1 else if a.Leave? then -1 else 0),
      mutex := if a.Lock? || a.Resume? then ByWorker(a.w) else if a.Sleep? || a.Unlock? then Free else s.mutex)
  }

  predicate IsPushAction(a: Action) { a.Push? || a.PushLock? || a.NotifyOne? || a.PushUnlock? || a.Take? }

  predicate PushEnabled(s: Pool, a: Action)
    requires IsPushAction(a)
  {
    match a
    case Push(p, t) => p !in s.pushers && t !in s.pushed
    case PushLock(p) => p in s.pushers && s.pushers[p].Pushed? && s.mutex.Free?
    case NotifyOne(p, woken) =>
      p in s.pushers && s.pushers[p].Holding? &&
      (match woken case Some(w) => At(s, w, Sleeping) case None => forall w | w in s.workers :: !s.workers[w].pc.Sleeping?)
    case PushUnlock(p) => p in s.pushers && s.pushers[p].Notified?
    case Take => s.queue != []
  }

  function PushStep(s: Pool, a: Action): Pool
    requires IsPushAction(a) && PushEnabled(s, a)
  {
    match a
    case Push(p, t) => s.(queue := s.queue + [t], pushed := s.pushed + {t}, pushers := s.pushers[p := Pushed])
    case PushLock(p) => s.(pushers := s.pushers[p := Holding], mutex := ByPusher(p))
    case NotifyOne(p, woken) =>
      var s1 := if woken.Some? then Move(s, woken.value, Woken) else s;
      s1.(pushers := s.pushers[p := Notified])
    case PushUnlock(p) => s.(pushers := s.pushers - {p}, mutex := Free)
    case Take => s.(queue := s.queue[1..], cleared := s.cleared + [s.queue[0]])
  }

  predicate ControlEnabled(s: Pool, a: Action)
    requires !IsWorkerAction(a) && !IsPushAction(a)
  {
    var c := s.control;
    match a
    case Resize(_) => c.Idle?
    case Spawn(w) => c.Growing? && |s.threads| < c.n && w !in s.workers
    case Grown => c.Growing? && |s.threads| >= c.n
    case FlagOff => c.Shrinking? && c.n < c.i <= |s.threads| && s.threads[c.i - 1] in s.workers
    case Shrunk => c.Shrinking? && c.i == c.n
    case Stop(_) => c.Idle?
    case FlagOn => c.Flagging? && c.i < |s.threads| && s.threads[c.i] in s.workers
    case Flagged => c.Flagging? && c.i == |s.threads|
    case ClearOne => (c.Clearing? || c.FinalClearing?) && s.queue != []
    case Cleared => (c.Clearing? || c.FinalClearing?) && s.queue == []
    case ControlLock => c.BeforeNotify? && s.mutex.Free?
    case NotifyAll => c.HoldNotify?
    case ControlUnlock => c.AfterNotify?
    case JoinOne => c.Joining? && c.i < |s.threads| && At(s, s.threads[c.i], Exited)
    case Joined => c.Joining? && c.i == |s.threads|
  }

  function SetFlag(s: Pool, w: Id): Pool
    requires w in s.workers
  {
    s.(workers := s.workers[w := s.workers[w].(flag := true)])
  }

  function WakeAll(ws: map<Id, Worker>): map<Id, Worker> {
    map w | w in ws :: if ws[w].pc.Sleeping? then ws[w].(pc := Woken) else ws[w]
  }

  function ControlStep(s: Pool, a: Action): Pool
    requires !IsWorkerAction(a) && !IsPushAction(a) && ControlEnabled(s, a)
  {
    var c := s.control;
    match a
    case Resize(n) =>
      if s.isStop || s.isDone then s
      else s.(control := if |s.threads| <= n then Growing(n) else Shrinking(n, |s.threads|))
    case Spawn(w) => s.(workers := s.workers[w := Worker(Starting, false)], threads := s.threads + [w])
    case Grown => s.(control := Idle)
    case FlagOff => SetFlag(s, s.threads[c.i - 1]).(control := Shrinking(c.n, c.i - 1))
    case Shrunk => s.(control := BeforeNotify(Truncate(c.n)))
    case Stop(isWait) =>
      if isWait then
        if s.isDone || s.isStop then s else s.(isDone := true, control := BeforeNotify(Join))
      else
        if s.isStop then s else s.(isStop := true, control := Flagging(0))
    case FlagOn => SetFlag(s, s.threads[c.i]).(control := Flagging(c.i + 1))
    case Flagged => s.(control := Clearing)
    case ClearOne => s.(queue := s.queue[1..], cleared := s.cleared + [s.queue[0]])
    case Cleared => if c.Clearing? then s.(control := BeforeNotify(Join)) else s.(control := Idle, threads := [])
    case ControlLock => s.(control := HoldNotify(c.next), mutex := ByControl)
    case NotifyAll => s.(control := AfterNotify(c.next), workers := WakeAll(s.workers))
    case ControlUnlock =>
      if c.next.Join? then s.(control := Joining(0), mutex := Free)
      else s.(control := Idle, mutex := Free, threads := if c.next.n <= |s.threads| then s.threads[..c.next.n] else s.threads)
    case JoinOne => s.(control := Joining(c.i + 1))
    case Joined => s.(control := FinalClearing)
  }

  predicate Enabled(s: Pool, a: Action) {
    if IsWorkerAction(a) then WorkerEnabled(s, a)
    else if IsPushAction(a) then PushEnabled(s, a)
    else ControlEnabled(s, a)
  }

  function After(s: Pool, a: Action): Pool
    requires Enabled(s, a)
  {
    if IsWorkerAction(a) then WorkerStep(s, a)
    else if IsPushAction(a) then PushStep(s, a)
    else ControlStep(s, a)
  }

  /** The actions acts lead from s to t, each enabled in turn. */
  predicate Run(s: Pool, acts: seq<Action>, t: Pool)
    decreases |acts|
  {
    if acts == [] then s == t else Enabled(s, acts[0]) && Run(After(s, acts[0]), acts[1..], t)
  }

  ghost predicate Reachable(s: Pool) { exists acts :: Run(INIT, acts, s) }

  // ------------------------------------------------------------ mutex

  predicate Holds(pc: WorkerPc) {
    pc.Entering? || pc.Arriving? || pc.CheckDone? || pc.CheckFlag? || pc.Sleepy?
    || pc.Resumed? || pc.Leaving? || pc.Unlocking?
  }

  predicate PusherHolds(pc: PusherPc) { pc.Holding? || pc.Notified? }

  predicate ControlHolds(pc: ControlPc) { pc.HoldNotify? || pc.AfterNotify? }

  /** Whoever is between lock and unlock owns the mutex. */
  ghost predicate MutexOk(s: Pool) {
    && (forall w | w in s.workers :: Holds(s.workers[w].pc) <==> s.mutex == ByWorker(w))
    && (forall p | p in s.pushers :: PusherHolds(s.pushers[p]) <==> s.mutex == ByPusher(p))
    && (ControlHolds(s.control) <==> s.mutex == ByControl)
    && (s.mutex.ByWorker? ==> s.mutex.w in s.workers)
    && (s.mutex.ByPusher? ==> s.mutex.p in s.pushers)
  }

  lemma PcHolds(s: Pool, a: Action)
    requires IsWorkerAction(a) && WorkerEnabled(s, a)
    ensures Holds(NewPc(s, a)) == (if a.Lock? || a.Resume? then true
      else if a.Sleep? || a.Unlock? then false else Holds(s.workers[a.w].pc))
    ensures a.Lock? || a.Resume? ==> s.mutex.Free?
    ensures a.Sleep? || a.Unlock? ==> Holds(s.workers[a.w].pc)
  {
  }

  lemma MutexWorker(s: Pool, a: Action)
    requires MutexOk(s) && IsWorkerAction(a) && WorkerEnabled(s, a)
    ensures MutexOk(WorkerStep(s, a))
  {
    PcHolds(s, a);
    hide NewPc, Holds, WorkerEnabled, TakesHead;
  }

  lemma MutexPush(s: Pool, a: Action)
    requires MutexOk(s) && IsPushAction(a) && PushEnabled(s, a)
    ensures MutexOk(PushStep(s, a))
  {
  }

  lemma MutexNotifyAll(s: Pool)
    requires MutexOk(s) && s.control.HoldNotify?
    ensures MutexOk(ControlStep(s, NotifyAll))
  {
    var u := ControlStep(s, NotifyAll);
    assert forall w | w in s.workers :: Holds(u.workers[w].pc) == Holds(s.workers[w].pc);
    hide Holds, PusherHolds;
  }

  /** Ownership is kept by any change that keeps the holders and moves the mutex only to or from the control thread. */
  lemma MutexFrame(s: Pool, u: Pool)
    requires MutexOk(s) && u.pushers == s.pushers
    requires forall w | w in u.workers :: Holds(u.workers[w].pc) <==> w in s.workers && Holds(s.workers[w].pc)
    requires forall w | w in s.workers :: w in u.workers
    requires u.mutex == s.mutex || (s.mutex.Free? && u.mutex == ByControl) || (s.mutex == ByControl && u.mutex.Free?)
    requires ControlHolds(u.control) <==> u.mutex == ByControl
    ensures MutexOk(u)
  {
    hide Holds, PusherHolds, ControlHolds;
  }

  lemma MutexControl(s: Pool, a: Action)
    requires MutexOk(s) && !IsWorkerAction(a) && !IsPushAction(a) && ControlEnabled(s, a)
    ensures MutexOk(ControlStep(s, a))
  {
    if a.NotifyAll? {
      MutexNotifyAll(s);
    } else {
      ControlPcs(s, a);
      ControlOwner(s, a);
      assert !Holds(Starting);
      var u := ControlStep(s, a);
      assert ControlHolds(s.control) <==> s.mutex == ByControl;
      hide MutexOk, Holds, PusherHolds, ControlHolds, ControlStep, ControlEnabled;
      MutexFrame(s, u);
    }
  }

  lemma ControlPcs(s: Pool, a: Action)
    requires !IsWorkerAction(a) && !IsPushAction(a) && ControlEnabled(s, a) && !a.NotifyAll?
    ensures var u := ControlStep(s, a);
      && (forall w | w in u.workers :: if w in s.workers then u.workers[w].pc == s.workers[w].pc else u.workers[w].pc == Starting)
      && (forall w | w in s.workers :: w in u.workers)
  {
    if !a.Spawn? && !a.FlagOn? && !a.FlagOff? {
      CallsKeepWorkers(s, a);
      hide ControlStep, ControlEnabled;
    }
  }

  /** Only ControlLock and ControlUnlock move the mutex. */
  ghost predicate OwnerKept(s: Pool, u: Pool) {
    u.pushers == s.pushers && u.mutex == s.mutex && ControlHolds(u.control) == ControlHolds(s.control)
  }

  predicate QueueKept(s: Pool, u: Pool) {
    u.queue == s.queue && u.executed == s.executed && u.cleared == s.cleared && u.pushed == s.pushed
  }

  lemma OwnerCalls(s: Pool, a: Action)
    requires (a.Resize? || a.Stop? || a.Grown? || a.Shrunk? || a.Flagged? || a.Joined?) && ControlEnabled(s, a)
    ensures OwnerKept(s, ControlStep(s, a)) && QueueKept(s, ControlStep(s, a))
  {
  }

  lemma OwnerThreads(s: Pool, a: Action)
    requires a.Spawn? || a.FlagOff? || a.FlagOn? || a.ClearOne? || a.Cleared? || a.JoinOne?
    requires ControlEnabled(s, a)
    ensures OwnerKept(s, ControlStep(s, a)) && (a.ClearOne? || QueueKept(s, ControlStep(s, a)))
  {
  }

  lemma ControlOwner(s: Pool, a: Action)
    requires !IsWorkerAction(a) && !IsPushAction(a) && ControlEnabled(s, a) && !a.NotifyAll?
    ensures var u := ControlStep(s, a);
      if a.ControlLock? then u.pushers == s.pushers && s.mutex.Free? && u.mutex == ByControl && ControlHolds(u.control)
      else if a.ControlUnlock? then
        u.pushers == s.pushers && ControlHolds(s.control) && u.mutex.Free? && !ControlHolds(u.control)
      else OwnerKept(s, u)
  {
    if !a.ControlLock? && !a.ControlUnlock? {
      hide ControlStep, ControlEnabled, OwnerKept;
      if a.Spawn? || a.FlagOff? || a.FlagOn? || a.ClearOne? || a.Cleared? || a.JoinOne? { OwnerThreads(s, a); }
      else { OwnerCalls(s, a); }
    }
  }

  // ---------------------------------------------------------- wakeups

  predicate IsResuming(pc: WorkerPc) { pc.Woken? || pc.Resumed? }

  /** Workers notified (or woken spuriously) that have not looked at the queue since. */
  function Resuming(ws: map<Id, Worker>): set<Id> { set w | w in ws && IsResuming(ws[w].pc) }

  /** Clients between q.push and notify_one. */
  function Pending(ps: map<Id, PusherPc>): set<Id> { set p | p in ps && !ps[p].Notified? }

  /** A worker that found the queue empty and is about to sleep on it. */
  predicate SawEmpty(pc: WorkerPc) { pc.CheckDone? || pc.CheckFlag? || pc.Sleepy? }

  ghost predicate WakeupOk(s: Pool) {
    && (forall w | w in s.workers && s.workers[w].pc.Sleeping? :: |s.queue| <= |Resuming(s.workers)| + |Pending(s.pushers)|)
    && (forall w | w in s.workers && SawEmpty(s.workers[w].pc) :: |s.queue| <= |Pending(s.pushers)|)
  }

  lemma ResumingMove(ws: map<Id, Worker>, w: Id, x: Worker)
    requires w in ws
    ensures |Resuming(ws[w := x])| == |Resuming(ws)|
      + (if IsResuming(x.pc) then 1 else 0) - (if IsResuming(ws[w].pc) then 1 else 0)
  {
    var before, after := Resuming(ws), Resuming(ws[w := x]);
    if IsResuming(x.pc) { assert after == before + {w}; } else { assert after == before - {w}; }
  }

  lemma ResumingSpawn(ws: map<Id, Worker>, w: Id, x: Worker)
    requires w !in ws && !IsResuming(x.pc)
    ensures Resuming(ws[w := x]) == Resuming(ws)
  {
  }

  lemma PendingMove(ps: map<Id, PusherPc>, p: Id, x: PusherPc)
    ensures |Pending(ps[p := x])| == |Pending(ps)|
      + (if x.Notified? then 0 else 1) - (if p in ps && !ps[p].Notified? then 1 else 0)
  {
    var before, after := Pending(ps), Pending(ps[p := x]);
    if x.Notified? { assert after == before - {p}; } else { assert after == before + {p}; }
  }

  lemma PcWakeup(s: Pool, a: Action)
    requires IsWorkerAction(a) && WorkerEnabled(s, a)
    ensures var pc, next := s.workers[a.w].pc, NewPc(s, a);
      && (IsResuming(pc) && !IsResuming(next) ==> TakesHead(s, a) || s.queue == [])
      && (SawEmpty(next) ==> SawEmpty(pc) || s.queue == [])
      && (next.Sleeping? ==> SawEmpty(pc))
  {
  }

  lemma WakeupWorker(s: Pool, a: Action)
    requires WakeupOk(s) && IsWorkerAction(a) && WorkerEnabled(s, a)
    ensures WakeupOk(WorkerStep(s, a))
  {
    PcWakeup(s, a);
    ResumingMove(s.workers, a.w, s.workers[a.w].(pc := NewPc(s, a)));
    hide NewPc, WorkerEnabled, IsResuming, SawEmpty, Resuming, Pending;
  }

  lemma WakeupPush(s: Pool, a: Action)
    requires MutexOk(s) && WakeupOk(s) && IsPushAction(a) && PushEnabled(s, a)
    ensures WakeupOk(PushStep(s, a))
  {
    if a.NotifyOne? {
      WakeupNotify(s, a);
    } else if a.PushUnlock? {
      assert Pending(s.pushers - {a.p}) == Pending(s.pushers);
    } else if !a.Take? {
      PendingMove(s.pushers, a.p, PushStep(s, a).pushers[a.p]);
    }
  }

  lemma WakeupNotify(s: Pool, a: Action)
    requires MutexOk(s) && WakeupOk(s) && a.NotifyOne? && PushEnabled(s, a)
    ensures WakeupOk(PushStep(s, a))
  {
    PendingMove(s.pushers, a.p, Notified);
    assert forall w | w in s.workers :: !SawEmpty(s.workers[w].pc) by {
      assert s.mutex == ByPusher(a.p);
    }
    if a.woken.Some? {
      var w := a.woken.value;
      ResumingMove(s.workers, w, s.workers[w].(pc := Woken));
    }
  }

  lemma WakeupFlag(s: Pool, w: Id, c: ControlPc)
    requires WakeupOk(s) && w in s.workers
    ensures WakeupOk(SetFlag(s, w).(control := c))
  {
    ResumingMove(s.workers, w, s.workers[w].(flag := true));
    hide Resuming, Pending, IsResuming;
  }

  lemma WakeupControl(s: Pool, a: Action)
    requires MutexOk(s) && WakeupOk(s) && !IsWorkerAction(a) && !IsPushAction(a) && ControlEnabled(s, a)
    ensures WakeupOk(ControlStep(s, a))
  {
    assert !IsResuming(Starting);
    hide Resuming, Pending, IsResuming;
    if a.FlagOff? || a.FlagOn? {
      var w := s.threads[if a.FlagOff? then s.control.i - 1 else s.control.i];
      WakeupFlag(s, w, ControlStep(s, a).control);
      hide WakeupOk, MutexOk;
    } else if a.Spawn? {
      ResumingSpawn(s.workers, a.w, Worker(Starting, false));
    } else if a.NotifyAll? {
      assert s.mutex == ByControl;
    }
  }

  // ---------------------------------------------------- stop commands

  /** resize or stop has commands out and has not called notify_all for them yet. */
  predicate NotifyPending(c: ControlPc) {
    c.Shrinking? || c.Flagging? || c.Clearing? || c.BeforeNotify? || c.HoldNotify?
  }

  /** A worker that would sleep through a command has its notify_all still coming; workers leave only when told. */
  ghost predicate SignalsOk(s: Pool) {
    forall w | w in s.workers ::
      var x := s.workers[w];
      && (s.isDone && (x.pc.CheckFlag? || x.pc.Sleepy? || x.pc.Sleeping?) ==> NotifyPending(s.control))
      && (x.flag && (x.pc.Sleepy? || x.pc.Sleeping?) ==> NotifyPending(s.control))
      && (x.pc == Exited || x.pc == Leaving(None) || x.pc == Unlocking(None) ==> s.isDone || x.flag)
  }

  lemma SignalsWorker(s: Pool, a: Action)
    requires SignalsOk(s) && IsWorkerAction(a) && WorkerEnabled(s, a)
    ensures SignalsOk(WorkerStep(s, a))
  {
    var t := WorkerStep(s, a);
    assert forall v | v in s.workers && v != a.w :: t.workers[v] == s.workers[v];
    assert t.workers[a.w] == s.workers[a.w].(pc := NewPc(s, a));
  }

  lemma SignalsPush(s: Pool, a: Action)
    requires SignalsOk(s) && IsPushAction(a) && PushEnabled(s, a)
    ensures SignalsOk(PushStep(s, a))
  {
  }

  lemma SignalsNotifyAll(s: Pool)
    requires MutexOk(s) && SignalsOk(s) && s.control.HoldNotify?
    ensures SignalsOk(ControlStep(s, NotifyAll))
  {
    assert s.mutex == ByControl;
    assert forall w | w in s.workers :: !Holds(s.workers[w].pc);
  }

  lemma SignalsControl(s: Pool, a: Action)
    requires MutexOk(s) && SignalsOk(s) && !IsWorkerAction(a) && !IsPushAction(a) && ControlEnabled(s, a)
    ensures SignalsOk(ControlStep(s, a))
  {
    hide MutexOk, WakeAll;
    if a.NotifyAll? {
      SignalsNotifyAll(s);
      hide *;
    } else if a.Spawn? || a.FlagOn? || a.FlagOff? {
      SignalsThreads(s, a);
      hide *;
    } else {
      CallsKeepWorkers(s, a);
    }
  }

  lemma SignalsThreads(s: Pool, a: Action)
    requires SignalsOk(s) && (a.Spawn? || a.FlagOn? || a.FlagOff?) && ControlEnabled(s, a)
    ensures SignalsOk(ControlStep(s, a))
  {
    var u := ControlStep(s, a);
    assert NotifyPending(u.control) == NotifyPending(s.control) && u.isDone == s.isDone;
  }

  lemma CallsKeepWorkers(s: Pool, a: Action)
    requires !IsWorkerAction(a) && !IsPushAction(a) && ControlEnabled(s, a)
    requires !a.NotifyAll? && !a.Spawn? && !a.FlagOn? && !a.FlagOff?
    ensures ControlStep(s, a).workers == s.workers
  {
  }

  // ----------------------------------------------------------- threads

  ghost predicate AllExited(s: Pool, n: nat)
    requires n <= |s.threads|
  {
    forall k | 0 <= k < n :: At(s, s.threads[k], Exited)
  }

  ghost predicate NoRepeats(ts: seq<Id>) { forall j, k | 0 <= j < k < |ts| :: ts[j] != ts[k] }

  ghost predicate ThreadsOk(s: Pool) {
    && (forall k | 0 <= k < |s.threads| :: s.threads[k] in s.workers)
    && NoRepeats(s.threads)
    && match s.control
       case Shrinking(n, i) => n <= i <= |s.threads|
       case Flagging(i) => i <= |s.threads|
       case BeforeNotify(next) => next.Truncate? ==> next.n <= |s.threads|
       case HoldNotify(next) => next.Truncate? ==> next.n <= |s.threads|
       case AfterNotify(next) => next.Truncate? ==> next.n <= |s.threads|
       case Joining(i) => i <= |s.threads| && AllExited(s, i)
       case FinalClearing => AllExited(s, |s.threads|)
       case _ => true
  }

  lemma ThreadsWorker(s: Pool, a: Action)
    requires ThreadsOk(s) && IsWorkerAction(a) && WorkerEnabled(s, a)
    ensures ThreadsOk(WorkerStep(s, a))
  {
    var t := WorkerStep(s, a);
    assert !s.workers[a.w].pc.Exited?;
    hide NewPc, WorkerEnabled, TakesHead;
    assert forall w | At(s, w, Exited) :: At(t, w, Exited);
  }

  lemma ThreadsPush(s: Pool, a: Action)
    requires ThreadsOk(s) && IsPushAction(a) && PushEnabled(s, a)
    ensures ThreadsOk(PushStep(s, a))
  {
    var t := PushStep(s, a);
    assert forall w | At(s, w, Exited) :: At(t, w, Exited);
    assert t.workers.Keys == s.workers.Keys && t.threads == s.threads && t.control == s.control;
    hide PushStep, PushEnabled, At;
  }

  lemma ThreadsChange(s: Pool, a: Action)
    requires ThreadsOk(s) && (a.Spawn? || a.ControlUnlock?) && ControlEnabled(s, a)
    ensures ThreadsOk(ControlStep(s, a))
  {
  }

  lemma ThreadsTold(s: Pool, a: Action)
    requires ThreadsOk(s) && (a.FlagOff? || a.FlagOn? || a.NotifyAll?) && ControlEnabled(s, a)
    ensures ThreadsOk(ControlStep(s, a))
  {
    var u := ControlStep(s, a);
    assert forall w | At(s, w, Exited) :: At(u, w, Exited);
    assert u.workers.Keys == s.workers.Keys && u.threads == s.threads;
    hide NoRepeats, WakeAll;
  }

  lemma ThreadsCleared(s: Pool)
    requires ThreadsOk(s) && ControlEnabled(s, Cleared)
    ensures ThreadsOk(ControlStep(s, Cleared))
  {
    assert NoRepeats([]);
  }

  lemma ThreadsJoined(s: Pool, a: Action)
    requires ThreadsOk(s) && (a.ControlLock? || a.JoinOne? || a.Joined?) && ControlEnabled(s, a)
    ensures ThreadsOk(ControlStep(s, a))
  {
    var u := ControlStep(s, a);
    assert u.workers == s.workers && u.threads == s.threads;
    assert forall w :: At(u, w, Exited) == At(s, w, Exited);
    hide NoRepeats;
  }

  lemma ThreadsRest(s: Pool, a: Action)
    requires a.Resize? || a.Stop? || a.Grown? || a.Shrunk? || a.Flagged? || a.ClearOne?
    requires ThreadsOk(s) && ControlEnabled(s, a)
    ensures ThreadsOk(ControlStep(s, a))
  {
    var u := ControlStep(s, a);
    assert u.workers == s.workers && u.threads == s.threads;
    assert a.ClearOne? ==> u.control == s.control;
    assert forall w :: At(u, w, Exited) == At(s, w, Exited);
    hide NoRepeats, At;
  }

  lemma ThreadsControl(s: Pool, a: Action)
    requires ThreadsOk(s) && !IsWorkerAction(a) && !IsPushAction(a) && ControlEnabled(s, a)
    ensures ThreadsOk(ControlStep(s, a))
  {
    hide ThreadsOk, ControlStep;
    if a.Spawn? || a.ControlUnlock? { ThreadsChange(s, a); }
    else if a.FlagOff? || a.FlagOn? || a.NotifyAll? { ThreadsTold(s, a); }
    else if a.Cleared? { ThreadsCleared(s); }
    else if a.ControlLock? || a.JoinOne? || a.Joined? { ThreadsJoined(s, a); }
    else { ThreadsRest(s, a); }
  }

  // ---------------------------------------------------- who is told what

  /** The threads that stay in the vector: a shrinking resize gives up the ones behind. */
  function Kept(s: Pool): nat {
    match s.control
    case Shrinking(_, i) => i
    case BeforeNotify(next) => if next.Truncate? then next.n else |s.threads|
    case HoldNotify(next) => if next.Truncate? then next.n else |s.threads|
    case AfterNotify(next) => if next.Truncate? then next.n else |s.threads|
    case _ => |s.threads|
  }

  predicate Stopping(c: ControlPc) {
    match c
    case Clearing => true
    case BeforeNotify(next) => next.Join?
    case HoldNotify(next) => next.Join?
    case AfterNotify(next) => next.Join?
    case Joining(_) => true
    case FinalClearing => true
    case _ => false
  }

  predicate FlagOf(s: Pool, w: Id) { w in s.workers && s.workers[w].flag }

  /** Threads that stay are not flagged before stop(false), and a stop that has come to its notify has told them all. */
  ghost predicate CommandOk(s: Pool) {
    && (!s.isStop ==> forall k | 0 <= k < Kept(s) && k < |s.threads| :: !FlagOf(s, s.threads[k]))
    && (s.control.Flagging? ==> s.isStop && forall k | 0 <= k < s.control.i && k < |s.threads| :: FlagOf(s, s.threads[k]))
    && (Stopping(s.control) ==> s.isDone || forall k | 0 <= k < |s.threads| :: FlagOf(s, s.threads[k]))
    && (Stopping(s.control) ==> s.isDone || s.isStop)
  }

  lemma CommandWorker(s: Pool, a: Action)
    requires CommandOk(s) && IsWorkerAction(a) && WorkerEnabled(s, a)
    ensures CommandOk(WorkerStep(s, a))
  {
    var u := WorkerStep(s, a);
    hide NewPc, WorkerEnabled, TakesHead;
    assert forall w :: FlagOf(u, w) == FlagOf(s, w);
    assert u.threads == s.threads && Kept(u) == Kept(s);
    hide WorkerStep, FlagOf, Kept;
  }

  lemma CommandPush(s: Pool, a: Action)
    requires CommandOk(s) && IsPushAction(a) && PushEnabled(s, a)
    ensures CommandOk(PushStep(s, a))
  {
    var u := PushStep(s, a);
    assert forall w :: FlagOf(u, w) == FlagOf(s, w);
    assert u.threads == s.threads && Kept(u) == Kept(s) && u.control == s.control && u.isDone == s.isDone && u.isStop == s.isStop;
    hide PushStep, PushEnabled, FlagOf, Kept;
  }

  lemma CommandFlags(s: Pool, a: Action)
    requires ThreadsOk(s) && CommandOk(s) && (a.FlagOff? || a.FlagOn?) && ControlEnabled(s, a)
    ensures CommandOk(ControlStep(s, a))
  {
    var u := ControlStep(s, a);
    if a.FlagOff? {
      assert forall k | 0 <= k < s.control.i - 1 :: s.threads[k] != s.threads[s.control.i - 1];
    } else {
      assert forall w | FlagOf(s, w) :: FlagOf(u, w);
    }
  }

  lemma CommandSpawn(s: Pool, a: Action)
    requires ThreadsOk(s) && CommandOk(s) && a.Spawn? && ControlEnabled(s, a)
    ensures CommandOk(ControlStep(s, a))
  {
    var u := ControlStep(s, a);
    assert forall k | 0 <= k < |s.threads| :: u.threads[k] == s.threads[k];
  }

  lemma CommandStop(s: Pool, a: Action)
    requires CommandOk(s) && (a.Resize? || a.Stop? || a.Flagged?) && ControlEnabled(s, a)
    ensures CommandOk(ControlStep(s, a))
  {
    assert ControlStep(s, a).workers == s.workers;
    hide FlagOf;
  }

  lemma CommandJoin(s: Pool, a: Action)
    requires CommandOk(s) && (a.ControlLock? || a.JoinOne? || a.Joined?) && ControlEnabled(s, a)
    ensures CommandOk(ControlStep(s, a))
  {
    assert ControlStep(s, a).workers == s.workers;
    hide FlagOf;
  }

  lemma CommandRest(s: Pool, a: Action)
    requires CommandOk(s) && !IsWorkerAction(a) && !IsPushAction(a) && ControlEnabled(s, a)
    requires !a.FlagOff? && !a.FlagOn? && !a.Spawn? && !a.NotifyAll? && !a.ControlUnlock?
    requires !a.Resize? && !a.Stop? && !a.Flagged? && !a.ControlLock? && !a.JoinOne? && !a.Joined?
    ensures CommandOk(ControlStep(s, a))
  {
    var u := ControlStep(s, a);
    assert u.workers == s.workers && u.isDone == s.isDone && u.isStop == s.isStop && !u.control.Flagging?;
    assert u.threads == s.threads || u.threads == [];
    assert Kept(u) <= Kept(s) && (Stopping(u.control) ==> Stopping(s.control));
    hide ControlStep, ControlEnabled, FlagOf, Kept, Stopping;
  }

  lemma CommandUnlock(s: Pool)
    requires CommandOk(s) && s.control.AfterNotify?
    ensures CommandOk(ControlStep(s, ControlUnlock))
  {
    assert forall w :: FlagOf(ControlStep(s, ControlUnlock), w) == FlagOf(s, w);
    hide FlagOf;
  }

  lemma CommandNotifyAll(s: Pool)
    requires CommandOk(s) && s.control.HoldNotify?
    ensures CommandOk(ControlStep(s, NotifyAll))
  {
    assert forall w :: FlagOf(ControlStep(s, NotifyAll), w) == FlagOf(s, w);
    hide FlagOf, WakeAll;
  }

  lemma CommandControl(s: Pool, a: Action)
    requires ThreadsOk(s) && CommandOk(s) && !IsWorkerAction(a) && !IsPushAction(a) && ControlEnabled(s, a)
    ensures CommandOk(ControlStep(s, a))
  {
    hide ThreadsOk, CommandOk, ControlStep;
    if a.NotifyAll? { CommandNotifyAll(s); }
    else if a.ControlUnlock? { CommandUnlock(s); }
    else if a.FlagOff? || a.FlagOn? { CommandFlags(s, a); }
    else if a.Spawn? { CommandSpawn(s, a); }
    else if a.Resize? || a.Stop? || a.Flagged? { CommandStop(s, a); }
    else if a.ControlLock? || a.JoinOne? || a.Joined? { CommandJoin(s, a); }
    else { CommandRest(s, a); }
  }

  // --------------------------------------------------- idle workers

  predicate InWait(pc: WorkerPc) {
    pc.Arriving? || SawEmpty(pc) || pc.Sleeping? || pc.Woken? || pc.Resumed? || pc.Leaving?
  }

  function Waiting(ws: map<Id, Worker>): set<Id> { set w | w in ws && InWait(ws[w].pc) }

  /** n_idle counts the workers inside cv.wait. */
  ghost predicate WaitingOk(s: Pool) { s.nWaiting == |Waiting(s.workers)| }

  lemma WaitingMove(ws: map<Id, Worker>, w: Id, x: Worker)
    requires w in ws
    ensures |Waiting(ws[w := x])| == |Waiting(ws)| + (if InWait(x.pc) then 1 else 0) - (if InWait(ws[w].pc) then 1 else 0)
  {
    var before, after := Waiting(ws), Waiting(ws[w := x]);
    if InWait(x.pc) { assert after == before + {w}; } else { assert after == before - {w}; }
  }

  lemma PcWaiting(s: Pool, a: Action)
    requires IsWorkerAction(a) && WorkerEnabled(s, a)
    ensures InWait(NewPc(s, a)) == if a.Enter? then true else if a.Leave? then false else InWait(s.workers[a.w].pc)
    ensures a.Enter? ==> !InWait(s.workers[a.w].pc)
    ensures a.Leave? ==> InWait(s.workers[a.w].pc)
  {
  }

  lemma WaitingWorker(s: Pool, a: Action)
    requires WaitingOk(s) && IsWorkerAction(a) && WorkerEnabled(s, a)
    ensures WaitingOk(WorkerStep(s, a))
  {
    PcWaiting(s, a);
    WaitingMove(s.workers, a.w, s.workers[a.w].(pc := NewPc(s, a)));
    hide NewPc, WorkerEnabled, InWait, Waiting;
  }

  lemma WaitingPush(s: Pool, a: Action)
    requires WaitingOk(s) && IsPushAction(a) && PushEnabled(s, a)
    ensures WaitingOk(PushStep(s, a))
  {
    if a.NotifyOne? && a.woken.Some? {
      var w := a.woken.value;
      WaitingMove(s.workers, w, s.workers[w].(pc := Woken));
    }
  }

  lemma WaitingControl(s: Pool, a: Action)
    requires WaitingOk(s) && !IsWorkerAction(a) && !IsPushAction(a) && ControlEnabled(s, a)
    ensures WaitingOk(ControlStep(s, a))
  {
    assert Waiting(ControlStep(s, a).workers) == Waiting(s.workers);
  }

  // ------------------------------------------------------------- tasks

  function TaskOf(pc: WorkerPc): Option<Task> {
    match pc
    case Running(t) => Some(t)
    case Leaving(got) => got
    case Unlocking(got) => got
    case _ => None
  }

  ghost predicate Held(ws: map<Id, Worker>, w: Id, t: Task) { w in ws && TaskOf(ws[w].pc) == Some(t) }

  ghost predicate HeldBySome(ws: map<Id, Worker>, t: Task) { exists w :: Held(ws, w, t) }

  ghost predicate Distinct(q: seq<Task>) { forall i, j | 0 <= i < j < |q| :: q[i] != q[j] }

  ghost predicate TasksOk(s: Pool) {
    && Distinct(s.queue) && Distinct(s.executed) && Distinct(s.cleared)
    && (forall t | t in s.queue :: t in s.pushed && t !in s.executed && t !in s.cleared && !HeldBySome(s.workers, t))
    && (forall t | t in s.executed :: t in s.pushed && t !in s.cleared && !HeldBySome(s.workers, t))
    && (forall t | t in s.cleared :: t in s.pushed && !HeldBySome(s.workers, t))
    && (forall w, t | Held(s.workers, w, t) :: t in s.pushed)
    && (forall v, w, t | Held(s.workers, v, t) && Held(s.workers, w, t) :: v == w)
    && (forall t | t in s.pushed :: t in s.queue || t in s.executed || t in s.cleared || HeldBySome(s.workers, t))
  }

  lemma PcTask(s: Pool, a: Action)
    requires IsWorkerAction(a) && WorkerEnabled(s, a)
    ensures var t := TaskOf(s.workers[a.w].pc);
      TaskOf(NewPc(s, a)) == if TakesHead(s, a) then Some(s.queue[0]) else if a.Execute? then None else t
    ensures TakesHead(s, a) ==> TaskOf(s.workers[a.w].pc) == None
    ensures a.Execute? ==> TaskOf(s.workers[a.w].pc) == Some(s.workers[a.w].pc.task)
  {
  }

  lemma SameHolders(ws: map<Id, Worker>, xs: map<Id, Worker>)
    requires forall w, t :: Held(ws, w, t) <==> Held(xs, w, t)
    ensures forall t :: HeldBySome(ws, t) <==> HeldBySome(xs, t)
  {
    hide Held;
    forall t ensures HeldBySome(ws, t) <==> HeldBySome(xs, t) {
      if HeldBySome(ws, t) { var w :| Held(ws, w, t); assert Held(xs, w, t); }
      if HeldBySome(xs, t) { var w :| Held(xs, w, t); assert Held(ws, w, t); }
    }
  }

  lemma HeadGone(q: seq<Task>)
    requires Distinct(q) && q != []
    ensures Distinct(q[1..]) && forall t :: t in q[1..] <==> t in q && t != q[0]
  {
    assert q == [q[0]] + q[1..];
  }

  lemma PushedOn(q: seq<Task>, t: Task)
    requires Distinct(q) && t !in q
    ensures Distinct(q + [t])
  {
  }

  /** A worker takes a function from the head of the queue. */
  lemma TasksTake(s: Pool, w: Id, x: Worker)
    requires TasksOk(s) && s.queue != [] && w in s.workers
    requires TaskOf(s.workers[w].pc) == None && TaskOf(x.pc) == Some(s.queue[0])
    ensures TasksOk(s.(workers := s.workers[w := x], queue := s.queue[1..]))
  {
    var h, xs := s.queue[0], s.workers[w := x];
    HeadGone(s.queue);
    assert h in s.queue;
    forall v, t ensures Held(xs, v, t) <==> Held(s.workers, v, t) || (v == w && t == h) {
    }
    assert Held(xs, w, h);
    hide TaskOf, Held, Distinct;
    forall t ensures HeldBySome(xs, t) <==> HeldBySome(s.workers, t) || t == h {
      if HeldBySome(xs, t) { var v :| Held(xs, v, t); if v != w { assert Held(s.workers, v, t); } }
      if HeldBySome(s.workers, t) { var v :| Held(s.workers, v, t); assert Held(xs, v, t); }
    }
    assert forall v :: !Held(s.workers, v, h);
  }

  /** A worker finishes the function it holds. */
  lemma TasksDone(s: Pool, w: Id, x: Worker, h: Task)
    requires TasksOk(s) && Held(s.workers, w, h) && TaskOf(x.pc) == None
    ensures TasksOk(s.(workers := s.workers[w := x], executed := s.executed + [h]))
  {
    var xs := s.workers[w := x];
    forall v, t ensures Held(xs, v, t) <==> Held(s.workers, v, t) && t != h {
      if Held(s.workers, v, t) && t == h { assert v == w; }
    }
    hide TaskOf, Held;
    assert HeldBySome(s.workers, h);
    forall t ensures HeldBySome(xs, t) <==> HeldBySome(s.workers, t) && t != h {
      if HeldBySome(xs, t) { var v :| Held(xs, v, t); assert Held(s.workers, v, t); }
      if HeldBySome(s.workers, t) && t != h { var v :| Held(s.workers, v, t); assert Held(xs, v, t); }
    }
    PushedOn(s.executed, h);
    hide Distinct, HeldBySome;
  }

  /** Nothing but the holder's place in its loop changes. */
  lemma TasksSame(s: Pool, u: Pool)
    requires TasksOk(s) && u.queue == s.queue && u.executed == s.executed && u.cleared == s.cleared && u.pushed == s.pushed
    requires forall w, t :: Held(s.workers, w, t) <==> Held(u.workers, w, t)
    ensures TasksOk(u)
  {
    hide Held, Distinct;
    SameHolders(s.workers, u.workers);
    hide HeldBySome;
  }

  lemma TasksIgnore(s: Pool, u: Pool)
    requires TasksOk(s) && u.queue == s.queue && u.executed == s.executed && u.cleared == s.cleared && u.pushed == s.pushed
    requires u.workers == s.workers
    ensures TasksOk(u)
  {
    hide Distinct, HeldBySome, Held;
  }

  lemma TasksWorker(s: Pool, a: Action)
    requires TasksOk(s) && IsWorkerAction(a) && WorkerEnabled(s, a)
    ensures TasksOk(WorkerStep(s, a))
  {
    PcTask(s, a);
    var u, x := WorkerStep(s, a), s.workers[a.w].(pc := NewPc(s, a));
    hide NewPc, WorkerEnabled, TasksOk;
    if TakesHead(s, a) {
      TasksTake(s, a.w, x);
      TasksIgnore(s.(workers := s.workers[a.w := x], queue := s.queue[1..]), u);
    } else if a.Execute? {
      TasksDone(s, a.w, x, s.workers[a.w].pc.task);
      TasksIgnore(s.(workers := s.workers[a.w := x], executed := s.executed + [s.workers[a.w].pc.task]), u);
    } else {
      TasksSame(s, u);
    }
  }

  lemma TasksClear(s: Pool, u: Pool)
    requires TasksOk(s) && s.queue != [] && u.workers == s.workers && u.pushed == s.pushed
    requires u.queue == s.queue[1..] && u.cleared == s.cleared + [s.queue[0]] && u.executed == s.executed
    ensures TasksOk(u)
  {
    HeadGone(s.queue);
    assert s.queue[0] in s.queue;
    PushedOn(s.cleared, s.queue[0]);
    hide Distinct, HeldBySome, Held;
  }

  lemma TasksPush(s: Pool, a: Action)
    requires TasksOk(s) && IsPushAction(a) && PushEnabled(s, a)
    ensures TasksOk(PushStep(s, a))
  {
    var u := PushStep(s, a);
    match a
    case Push(p, t) =>
      PushedOn(s.queue, t);
      assert !HeldBySome(s.workers, t);
      hide Distinct, HeldBySome, Held;
    case NotifyOne(p, woken) => TasksSame(s, u);
    case Take => TasksClear(s, u);
    case _ => TasksIgnore(s, u);
  }

  lemma ControlHeld(s: Pool, a: Action)
    requires !IsWorkerAction(a) && !IsPushAction(a) && ControlEnabled(s, a)
    ensures forall w, t :: Held(s.workers, w, t) <==> Held(ControlStep(s, a).workers, w, t)
  {
  }

  lemma ControlQueue(s: Pool, a: Action)
    requires !IsWorkerAction(a) && !IsPushAction(a) && ControlEnabled(s, a) && !a.ClearOne?
    ensures QueueKept(s, ControlStep(s, a))
  {
    if !a.ControlLock? && !a.ControlUnlock? && !a.NotifyAll? {
      hide ControlStep, ControlEnabled, QueueKept;
      if a.Spawn? || a.FlagOff? || a.FlagOn? || a.Cleared? || a.JoinOne? { OwnerThreads(s, a); } else { OwnerCalls(s, a); }
    }
  }

  lemma TasksControl(s: Pool, a: Action)
    requires TasksOk(s) && !IsWorkerAction(a) && !IsPushAction(a) && ControlEnabled(s, a)
    ensures TasksOk(ControlStep(s, a))
  {
    hide TasksOk, Held;
    if a.ClearOne? {
      TasksClear(s, ControlStep(s, a));
    } else {
      ControlHeld(s, a);
      ControlQueue(s, a);
      hide ControlStep, ControlEnabled;
      TasksSame(s, ControlStep(s, a));
    }
  }

  // --------------------------------------------------------- all steps

  ghost predicate Inv(s: Pool) {
    MutexOk(s) && WakeupOk(s) && SignalsOk(s) && ThreadsOk(s) && CommandOk(s) && WaitingOk(s) && TasksOk(s)
  }

  lemma StepKeepsInv(s: Pool, a: Action)
    requires Inv(s) && Enabled(s, a)
    ensures Inv(After(s, a))
  {
    hide MutexOk, WakeupOk, SignalsOk, ThreadsOk, CommandOk, WaitingOk, TasksOk, WorkerEnabled, PushEnabled, ControlEnabled,
      WorkerStep, PushStep, ControlStep, IsWorkerAction, IsPushAction;
    if IsWorkerAction(a) {
      MutexWorker(s, a); WakeupWorker(s, a); SignalsWorker(s, a); ThreadsWorker(s, a);
      CommandWorker(s, a); WaitingWorker(s, a); TasksWorker(s, a);
    } else if IsPushAction(a) {
      MutexPush(s, a); WakeupPush(s, a); SignalsPush(s, a); ThreadsPush(s, a);
      CommandPush(s, a); WaitingPush(s, a); TasksPush(s, a);
    } else {
      MutexControl(s, a); WakeupControl(s, a); SignalsControl(s, a); ThreadsControl(s, a);
      CommandControl(s, a); WaitingControl(s, a); TasksControl(s, a);
    }
  }

  lemma {:induction false} RunKeepsInv(s: Pool, acts: seq<Action>, t: Pool)
    requires Inv(s) && Run(s, acts, t)
    ensures Inv(t)
    decreases |acts|
  {
    if acts != [] {
      StepKeepsInv(s, acts[0]);
      hide Inv, Enabled, After;
      RunKeepsInv(After(s, acts[0]), acts[1..], t);
    }
  }

  lemma InitInv()
    ensures Inv(INIT)
  {
  }

  lemma ReachableInv(s: Pool)
    requires Reachable(s)
    ensures Inv(s)
  {
    var acts :| Run(INIT, acts, s);
    InitInv();
    RunKeepsInv(INIT, acts, s);
  }

  // ------------------------------------------------------ main results

  /** No lost wakeup: while a worker sleeps un-notified, every queued task is accounted for by a notified worker or by a
      push that has still to notify; so with neither of them about, nothing is queued. */
  lemma NoLostWakeup(s: Pool, w: Id)
    requires Reachable(s) && At(s, w, Sleeping)
    ensures |s.queue| <= |Resuming(s.workers)| + |Pending(s.pushers)|
    ensures Resuming(s.workers) == {} && Pending(s.pushers) == {} ==> s.queue == []
  {
    ReachableInv(s);
  }

  /** A step that some thread already at work takes next: no new call, no spurious wakeup. */
  predicate Progress(a: Action) { !a.Spurious? && !a.Push? && !a.Take? && !a.Resize? && !a.Stop? }

  ghost predicate CanProgress(s: Pool) { exists a :: Progress(a) && Enabled(s, a) }

  /** The owner of the mutex can always go on. */
  lemma OwnerMoves(s: Pool)
    requires MutexOk(s) && !s.mutex.Free?
    ensures CanProgress(s)
  {
    match s.mutex
    case ByControl =>
      var a := if s.control.HoldNotify? then NotifyAll else ControlUnlock;
      assert Progress(a) && Enabled(s, a);
    case ByPusher(p) =>
      if s.pushers[p].Notified? {
        assert Progress(PushUnlock(p)) && Enabled(s, PushUnlock(p));
      } else if w :| w in s.workers && s.workers[w].pc.Sleeping? {
        assert Progress(NotifyOne(p, Some(w))) && Enabled(s, NotifyOne(p, Some(w)));
      } else {
        assert Progress(NotifyOne(p, None)) && Enabled(s, NotifyOne(p, None));
      }
    case ByWorker(w) => WorkerMoves(s, w);
  }

  /** A worker that has not exited and is not asleep can go on, unless it waits for the mutex. */
  lemma WorkerMoves(s: Pool, w: Id)
    requires w in s.workers && !s.workers[w].pc.Exited? && !s.workers[w].pc.Sleeping?
    requires s.workers[w].pc.Locking? || s.workers[w].pc.Woken? ==> s.mutex.Free?
    ensures CanProgress(s)
  {
    var a := match s.workers[w].pc
      case Starting => Pop(w)
      case Popping => Pop(w)
      case Running(_) => Execute(w)
      case Finished => TestFlag(w)
      case Locking => Lock(w)
      case Entering => Enter(w)
      case Arriving => Check(w)
      case CheckDone => ReadDone(w)
      case CheckFlag => ReadFlag(w)
      case Sleepy => Sleep(w)
      case Woken => Resume(w)
      case Resumed => Check(w)
      case Leaving(_) => Leave(w)
      case Unlocking(_) => Unlock(w)
      case _ => Pop(w);
    assert Progress(a) && Enabled(s, a);
  }

  /** The pool never stands still with a task queued and a worker asleep. */
  lemma NeverStuck(s: Pool, w: Id)
    requires Reachable(s) && At(s, w, Sleeping) && s.queue != []
    ensures CanProgress(s)
  {
    ReachableInv(s);
    if !s.mutex.Free? {
      OwnerMoves(s);
    } else if v :| v in Resuming(s.workers) {
      assert s.workers[v].pc.Woken?;
      WorkerMoves(s, v);
    } else {
      assert Resuming(s.workers) == {};
      assert Pending(s.pushers) != {};
      var p :| p in Pending(s.pushers);
      assert Progress(PushLock(p)) && Enabled(s, PushLock(p));
    }
  }

  /** stop never waits in join for a worker that sleeps un-notified, and the pool can always go on meanwhile. */
  lemma JoinNeverHangs(s: Pool)
    requires Reachable(s) && s.control.Joining? && s.control.i < |s.threads|
    ensures !At(s, s.threads[s.control.i], Sleeping) && CanProgress(s)
  {
    ReachableInv(s);
    JoinGoesOn(s);
  }

  lemma JoinGoesOn(s: Pool)
    requires Inv(s) && s.control.Joining? && s.control.i < |s.threads|
    ensures !At(s, s.threads[s.control.i], Sleeping) && CanProgress(s)
  {
    var w := s.threads[s.control.i];
    var x := s.workers[w];
    assert s.isDone || FlagOf(s, w);
    if !s.mutex.Free? {
      OwnerMoves(s);
    } else if x.pc.Exited? {
      assert Progress(JoinOne) && Enabled(s, JoinOne);
    } else {
      WorkerMoves(s, w);
    }
  }

  /** n_idle is the number of workers inside cv.wait. */
  lemma IdleCount(s: Pool)
    requires Reachable(s)
    ensures s.nWaiting == |set w | w in s.workers && InWait(s.workers[w].pc)|
  {
    ReachableInv(s);
    assert (set w | w in s.workers && InWait(s.workers[w].pc)) == Waiting(s.workers);
  }

  datatype Place = Queued(i: nat) | HeldBy(w: Id) | Executed(i: nat) | Dropped(i: nat)

  ghost predicate IsAt(s: Pool, t: Task, p: Place) {
    match p
    case Queued(i) => i < |s.queue| && s.queue[i] == t
    case HeldBy(w) => Held(s.workers, w, t)
    case Executed(i) => i < |s.executed| && s.executed[i] == t
    case Dropped(i) => i < |s.cleared| && s.cleared[i] == t
  }

  /** Every pushed task is in exactly one place: queued once, held by one worker, executed once, or cleared. */
  lemma {:induction false} Conservation(s: Pool, t: Task)
    requires Reachable(s)
    ensures t in s.pushed <==> exists p :: IsAt(s, t, p)
    ensures forall p, q | IsAt(s, t, p) && IsAt(s, t, q) :: p == q
  {
    ReachableInv(s);
    PlaceKinds(s, t);
    if t in s.pushed { var p := FindPlace(s, t); }
    forall p, q | IsAt(s, t, p) && IsAt(s, t, q) ensures p == q { OnePlace(s, t, p, q); }
  }

  lemma PlaceKinds(s: Pool, t: Task)
    requires TasksOk(s)
    ensures forall p | IsAt(s, t, p) :: t in s.pushed
  {
    forall p | IsAt(s, t, p) ensures t in s.pushed {
      match p
      case Queued(i) => assert s.queue[i] in s.queue;
      case HeldBy(w) =>
      case Executed(i) => assert s.executed[i] in s.executed;
      case Dropped(i) => assert s.cleared[i] in s.cleared;
    }
  }

  lemma FindPlace(s: Pool, t: Task) returns (p: Place)
    requires TasksOk(s) && t in s.pushed
    ensures IsAt(s, t, p)
  {
    if t in s.queue { var i :| 0 <= i < |s.queue| && s.queue[i] == t; p := Queued(i); }
    else if t in s.executed { var i :| 0 <= i < |s.executed| && s.executed[i] == t; p := Executed(i); }
    else if t in s.cleared { var i :| 0 <= i < |s.cleared| && s.cleared[i] == t; p := Dropped(i); }
    else { var w :| Held(s.workers, w, t); p := HeldBy(w); }
  }

  lemma OnePlace(s: Pool, t: Task, p: Place, q: Place)
    requires TasksOk(s) && IsAt(s, t, p) && IsAt(s, t, q)
    ensures p == q
  {
    Kind(s, t, p);
    Kind(s, t, q);
  }

  lemma Kind(s: Pool, t: Task, p: Place)
    requires TasksOk(s) && IsAt(s, t, p)
    ensures p.Queued? <==> t in s.queue
    ensures p.Executed? <==> t in s.executed
    ensures p.Dropped? <==> t in s.cleared
    ensures p.HeldBy? <==> HeldBySome(s.workers, t)
  {
    match p
    case Queued(i) => assert s.queue[i] in s.queue;
    case HeldBy(w) => assert HeldBySome(s.workers, t);
    case Executed(i) => assert s.executed[i] in s.executed;
    case Dropped(i) => assert s.cleared[i] in s.cleared;
  }

  // ------------------------------------------------------- stop(true)

  /** No new push, client pop, resize or stop. */
  predicate Quiet(a: Action) { !a.Push? && !a.Take? && !a.Resize? && !a.Stop? }

  predicate AllQuiet(acts: seq<Action>) { forall a | a in acts :: Quiet(a) }

  /** stop was not called yet, no resize is going on, and there are threads. */
  predicate Stoppable(s: Pool) { s.control.Idle? && !s.isDone && !s.isStop && s.threads != [] }

  /** A quiet run of stop(true) that returned. */
  predicate Stopped(s: Pool, acts: seq<Action>, t: Pool)
    requires s.control.Idle?
  {
    Run(After(s, Stop(true)), acts, t) && AllQuiet(acts) && t.control.Idle?
  }

  /** Nothing is queued, or some thread does not stand between a failed q.pop and reading isDone. */
  ghost predicate Drains(s: Pool) {
    s.queue == [] || exists w :: w in s.threads && w in s.workers && !s.workers[w].pc.CheckDone?
  }

  /** A worker that leaves without looking at the queue again once isDone is set. */
  predicate GaveUp(pc: WorkerPc) {
    pc.CheckDone? || pc == Leaving(None) || pc == Unlocking(None) || pc.Exited?
  }

  /** The state of a stop(true) over the threads ts, of which w has not given up with anything queued. */
  ghost predicate Draining(s: Pool, ts: seq<Id>, w: Id, cleared: seq<Task>) {
    && s.isDone && s.cleared == cleared && w in ts
    && (forall v | v in ts :: v in s.workers && !s.workers[v].flag)
    && (s.queue == [] || !GaveUp(s.workers[w].pc))
    && (if s.control.Idle? then forall v | v in ts :: At(s, v, Exited)
        else s.threads == ts && Stopping(s.control) && !s.control.Clearing?)
  }

  lemma DrainingWorker(s: Pool, a: Action, ts: seq<Id>, w: Id, cleared: seq<Task>)
    requires Draining(s, ts, w, cleared) && IsWorkerAction(a) && WorkerEnabled(s, a)
    ensures Draining(WorkerStep(s, a), ts, w, cleared)
  {
    var u := WorkerStep(s, a);
    assert a.w == w && GaveUp(NewPc(s, a)) ==> GaveUp(s.workers[a.w].pc) || s.queue == [];
    assert s.queue == [] ==> u.queue == [];
    assert !At(s, a.w, Exited);
    hide NewPc, WorkerEnabled, GaveUp, Stopping;
  }

  lemma DrainingPush(s: Pool, a: Action, ts: seq<Id>, w: Id, cleared: seq<Task>)
    requires Draining(s, ts, w, cleared) && IsPushAction(a) && PushEnabled(s, a) && Quiet(a)
    ensures Draining(PushStep(s, a), ts, w, cleared)
  {
    if a.NotifyOne? && a.woken.Some? {
      assert !GaveUp(Woken) && !At(s, a.woken.value, Exited);
    }
    hide GaveUp, Stopping;
  }

  lemma DrainingControl(s: Pool, a: Action, ts: seq<Id>, w: Id, cleared: seq<Task>)
    requires Draining(s, ts, w, cleared) && ThreadsOk(s)
    requires !IsWorkerAction(a) && !IsPushAction(a) && ControlEnabled(s, a) && Quiet(a)
    ensures Draining(ControlStep(s, a), ts, w, cleared)
  {
    if s.control.FinalClearing? {
      assert AllExited(s, |s.threads|);
      assert forall v | v in ts :: At(s, v, Exited);
      assert At(s, w, Exited);
    }
  }

  lemma {:induction false} DrainingRun(s: Pool, acts: seq<Action>, t: Pool, ts: seq<Id>, w: Id, cleared: seq<Task>)
    requires Inv(s) && Draining(s, ts, w, cleared) && Run(s, acts, t) && AllQuiet(acts)
    ensures Inv(t) && Draining(t, ts, w, cleared)
    decreases |acts|
  {
    if acts != [] {
      var a := acts[0];
      assert a in acts && forall b | b in acts[1..] :: b in acts;
      StepKeepsInv(s, a);
      assert Draining(After(s, a), ts, w, cleared) by {
        hide Draining, WorkerStep, PushStep, ControlStep, ThreadsOk;
        if IsWorkerAction(a) { DrainingWorker(s, a, ts, w, cleared); }
        else if IsPushAction(a) { DrainingPush(s, a, ts, w, cleared); }
        else { DrainingControl(s, a, ts, w, cleared); }
      }
      hide Draining, Inv, After, Enabled, Quiet;
      DrainingRun(After(s, a), acts[1..], t, ts, w, cleared);
    }
  }

  /** Before stop(true) no thread has been told to leave. */
  lemma UntoldThreads(s: Pool)
    requires Inv(s) && Stoppable(s)
    ensures forall w | w in s.threads ::
      w in s.workers && !s.workers[w].flag && (GaveUp(s.workers[w].pc) ==> s.workers[w].pc.CheckDone?)
  {
    forall w | w in s.threads
      ensures w in s.workers && !s.workers[w].flag && (GaveUp(s.workers[w].pc) ==> s.workers[w].pc.CheckDone?)
    {
      var k :| 0 <= k < |s.threads| && s.threads[k] == w;
      assert !FlagOf(s, s.threads[k]);
    }
  }

  lemma DrainingStart(s: Pool) returns (w: Id)
    requires Inv(s) && Stoppable(s) && Drains(s)
    ensures Draining(After(s, Stop(true)), s.threads, w, s.cleared)
  {
    UntoldThreads(s);
    hide Inv, GaveUp;
    if s.queue == [] { w := s.threads[0]; } else { w :| w in s.threads && w in s.workers && !s.workers[w].pc.CheckDone?; }
  }

  /** A worker that is not in the vector of threads, i.e. detached, holds the task. */
  ghost predicate HeldOutside(ws: map<Id, Worker>, ts: seq<Id>, t: Task) { exists w :: w !in ts && Held(ws, w, t) }

  /** stop(true) on such a pool, whatever pushes are under way: when it returns the queue is empty, nothing has been
      cleared since, and every task has been executed (exactly once, by Conservation), unless it was cleared before or a
      worker that an earlier resize detached still holds it. */
  lemma {:induction false} StopRunsEverything(s: Pool, acts: seq<Action>, t: Pool, x: Task)
    requires Reachable(s) && Stoppable(s) && Drains(s) && Stopped(s, acts, t)
    ensures t.queue == [] && t.cleared == s.cleared
    ensures x in t.pushed ==> x in t.executed || x in s.cleared || HeldOutside(t.workers, s.threads, x)
  {
    ReachableInv(s);
    var w := DrainingStart(s);
    StepKeepsInv(s, Stop(true));
    DrainingRun(After(s, Stop(true)), acts, t, s.threads, w, s.cleared);
    hide Inv, Run, After;
    DrainedTasks(t, s.threads, w, s.cleared, x);
  }

  lemma DrainedTasks(t: Pool, ts: seq<Id>, w: Id, cleared: seq<Task>, x: Task)
    requires Inv(t) && Draining(t, ts, w, cleared) && t.control.Idle?
    ensures t.queue == []
    ensures x in t.pushed ==> x in t.executed || x in cleared || HeldOutside(t.workers, ts, x)
  {
    assert At(t, w, Exited);
    assert t.queue == [];
    if x in t.pushed && x !in t.executed && x !in cleared {
      assert TasksOk(t);
      var v :| Held(t.workers, v, x);
      assert v in ts ==> At(t, v, Exited);
    }
  }

  // ------------------------------------------------------ calls return

  /** How many steps a worker can take without a task, a wakeup or a command: once isDone is set it passes the wait at
      most twice, spurious wakeups included; before, it may go to sleep for good. */
  function WorkerRank(done: bool, pc: WorkerPc): nat {
    match pc
    case Exited => 0
    case Sleeping => if done then 7 else 0
    case Sleepy => if done then 8 else 1
    case CheckFlag => if done then 9 else 3
    case Unlocking(got) => if got.None? then 1 else 11
    case Leaving(got) => if got.None? then 2 else 12
    case CheckDone => 4
    case Arriving => 5
    case Resumed => 5
    case Woken => 6
    case Entering => 6
    case Locking => 7
    case Popping => 8
    case Starting => 8
    case Finished => 9
    case Running(_) => 10
  }

  function PusherRank(pc: PusherPc): nat { if pc.Pushed? then 9 else if pc.Holding? then 8 else 1 }

  /** With n threads in the vector and m ever started; the notify_all can wake them all. */
  function ControlRank(c: ControlPc, n: nat, m: nat): nat {
    match c
    case Idle => 0
    case Growing(k) => if n < k then 9 * (k - n) + 1 else 1
    case FinalClearing => 1
    case Joining(i) => 2 + (if i < n then n - i else 0)
    case AfterNotify(_) => 3 + n
    case HoldNotify(_) => 4 + n + 6 * m
    case BeforeNotify(_) => 5 + n + 6 * m
    case Clearing => 6 + n + 6 * m
    case Flagging(i) => 7 + n + 6 * m + (if i < n then n - i else 0)
    case Shrinking(k, i) => 6 + n + 6 * m + (if k < i then i - k else 0)
  }

  /** As many pairs as the ranks add up to. */
  ghost function Units(m: map<Id, nat>): set<(Id, nat)> { set w, k | w in m && 0 <= k < m[w] :: (w, k) }

  ghost function Row(w: Id, n: nat): set<(Id, nat)> { set k | 0 <= k < n :: (w, k) }

  lemma {:induction false} RowSize(w: Id, n: nat)
    ensures |Row(w, n)| == n
  {
    if n > 0 {
      RowSize(w, n - 1);
      assert Row(w, n) == Row(w, n - 1) + {(w, (n - 1) as nat)};
    }
  }

  lemma UnitsDrop(m: map<Id, nat>, w: Id)
    ensures |Units(m)| == |Units(m - {w})| + (if w in m then m[w] else 0)
  {
    if w in m {
      RowSize(w, m[w]);
      assert Units(m) == Units(m - {w}) + Row(w, m[w]);
    } else {
      assert m - {w} == m;
    }
  }

  lemma UnitsMove(m: map<Id, nat>, w: Id, n: nat)
    ensures |Units(m[w := n])| == |Units(m)| + n - (if w in m then m[w] else 0)
  {
    UnitsDrop(m, w);
    UnitsDrop(m[w := n], w);
    assert m[w := n] - {w} == m - {w};
  }

  /** Raising each of the ranks by at most n adds at most n for each. */
  lemma {:induction false} UnitsRaise(m: map<Id, nat>, x: map<Id, nat>, n: nat)
    requires x.Keys == m.Keys && forall w | w in m :: x[w] <= m[w] + n
    ensures |Units(x)| <= |Units(m)| + n * |m|
    decreases |m|
  {
    if m == map[] {
      assert x == m;
    } else {
      var w :| w in m;
      UnitsDrop(m, w);
      UnitsDrop(x, w);
      assert (m - {w}).Keys == m.Keys - {w} && |(m - {w}).Keys| == |m - {w}| && |m.Keys| == |m|;
      assert (x - {w}).Keys == (m - {w}).Keys;
      UnitsRaise(m - {w}, x - {w}, n);
      assert n * |m| == n * |m - {w}| + n;
    }
  }

  ghost function WorkerRanks(done: bool, ws: map<Id, Worker>): map<Id, nat> {
    map w | w in ws :: WorkerRank(done, ws[w].pc)
  }

  ghost function PusherRanks(ps: map<Id, PusherPc>): map<Id, nat> { map p | p in ps :: PusherRank(ps[p]) }

  /** What the workers and the clients still have to do with n tasks queued. */
  ghost function Load(n: nat, done: bool, ws: map<Id, Worker>, ps: map<Id, PusherPc>): nat {
    8 * n + |Units(WorkerRanks(done, ws))| + |Units(PusherRanks(ps))|
  }

  /** A bound on the steps the pool still takes with no new call. */
  ghost function Rank(s: Pool): nat {
    Load(|s.queue|, s.isDone, s.workers, s.pushers) + ControlRank(s.control, |s.threads|, |s.workers|)
  }

  lemma SizeMove(ws: map<Id, Worker>, w: Id, x: Worker)
    ensures |ws[w := x]| == |ws| + if w in ws then 0 else 1
  {
    assert ws[w := x].Keys == ws.Keys + {w} && |ws[w := x].Keys| == |ws[w := x]| && |ws.Keys| == |ws|;
  }

  lemma MoveRank(done: bool, ws: map<Id, Worker>, w: Id, x: Worker)
    ensures |Units(WorkerRanks(done, ws[w := x]))|
      == |Units(WorkerRanks(done, ws))| + WorkerRank(done, x.pc) - (if w in ws then WorkerRank(done, ws[w].pc) else 0)
  {
    var n := WorkerRank(done, x.pc);
    UnitsMove(WorkerRanks(done, ws), w, n);
    hide WorkerRank;
    assert WorkerRanks(done, ws[w := x]) == WorkerRanks(done, ws)[w := n];
  }

  lemma PushRank(ps: map<Id, PusherPc>, p: Id, x: PusherPc)
    requires p in ps
    ensures |Units(PusherRanks(ps[p := x]))| == |Units(PusherRanks(ps))| + PusherRank(x) - PusherRank(ps[p])
    ensures |Units(PusherRanks(ps - {p}))| == |Units(PusherRanks(ps))| - PusherRank(ps[p])
  {
    UnitsMove(PusherRanks(ps), p, PusherRank(x));
    UnitsDrop(PusherRanks(ps), p);
    assert PusherRanks(ps[p := x]) == PusherRanks(ps)[p := PusherRank(x)];
    assert PusherRanks(ps - {p}) == PusherRanks(ps) - {p};
  }

  lemma WakeRank(done: bool, ws: map<Id, Worker>)
    ensures |Units(WorkerRanks(done, WakeAll(ws)))| <= |Units(WorkerRanks(done, ws))| + 6 * |ws|
    ensures |WakeAll(ws)| == |ws|
  {
    assert WakeAll(ws).Keys == ws.Keys && |WakeAll(ws).Keys| == |WakeAll(ws)| && |ws.Keys| == |ws|;
    var m := WorkerRanks(done, ws);
    assert m.Keys == ws.Keys && |m.Keys| == |m|;
    UnitsRaise(m, WorkerRanks(done, WakeAll(ws)), 6);
  }

  /** No new call, and no spurious wakeup before isDone is set. */
  predicate Settling(s: Pool, a: Action) { Quiet(a) && (a.Spurious? ==> s.isDone) }

  lemma PcRank(s: Pool, a: Action)
    requires IsWorkerAction(a) && WorkerEnabled(s, a) && Settling(s, a)
    ensures WorkerRank(s.isDone, NewPc(s, a)) < WorkerRank(s.isDone, s.workers[a.w].pc) + (if TakesHead(s, a) then 8 else 0)
  {
  }

  lemma WorkerStepRank(s: Pool, a: Action)
    requires IsWorkerAction(a) && WorkerEnabled(s, a) && Settling(s, a)
    ensures Rank(WorkerStep(s, a)) < Rank(s)
  {
    PcRank(s, a);
    var x := s.workers[a.w].(pc := NewPc(s, a));
    MoveRank(s.isDone, s.workers, a.w, x);
    SizeMove(s.workers, a.w, x);
    hide NewPc, WorkerEnabled, WorkerRank, WorkerRanks, PusherRanks, Units, ControlRank;
  }

  lemma NotifyRank(s: Pool, a: Action)
    requires a.NotifyOne? && PushEnabled(s, a)
    ensures Rank(PushStep(s, a)) < Rank(s)
  {
    PushRank(s.pushers, a.p, Notified);
    if a.woken.Some? {
      var w := a.woken.value;
      var x := s.workers[w].(pc := Woken);
      MoveRank(s.isDone, s.workers, w, x);
      SizeMove(s.workers, w, x);
      assert WorkerRank(s.isDone, Woken) <= WorkerRank(s.isDone, Sleeping) + 6;
      hide WorkerRank, WorkerRanks, PusherRanks, Units, ControlRank;
    }
  }

  lemma PushStepRank(s: Pool, a: Action)
    requires IsPushAction(a) && PushEnabled(s, a) && Quiet(a)
    ensures Rank(PushStep(s, a)) < Rank(s)
  {
    if a.NotifyOne? {
      NotifyRank(s, a);
      hide Rank, PushStep;
    } else {
      PushRank(s.pushers, a.p, Holding);
      hide WorkerRanks, PusherRanks, Units, ControlRank;
    }
  }

  lemma ThreadStepRank(s: Pool, a: Action)
    requires (a.Spawn? || a.FlagOff? || a.FlagOn?) && ControlEnabled(s, a)
    ensures Rank(ControlStep(s, a)) < Rank(s)
  {
    var w := if a.Spawn? then a.w else s.threads[if a.FlagOff? then s.control.i - 1 else s.control.i];
    var x := if a.Spawn? then Worker(Starting, false) else s.workers[w].(flag := true);
    MoveRank(s.isDone, s.workers, w, x);
    SizeMove(s.workers, w, x);
    assert WorkerRank(s.isDone, Starting) == 8;
    hide WorkerRank, WorkerRanks, PusherRanks, Units;
  }

  lemma NotifyAllRank(s: Pool)
    requires s.control.HoldNotify?
    ensures Rank(ControlStep(s, NotifyAll)) < Rank(s)
  {
    WakeRank(s.isDone, s.workers);
    hide WorkerRanks, PusherRanks, Units, WakeAll;
  }

  /** Only the control state and the vector of threads change, and the rank of the call drops. */
  ghost predicate CallDrops(s: Pool, u: Pool) {
    && u.queue == s.queue && u.workers == s.workers && u.pushers == s.pushers && u.isDone == s.isDone
    && ControlRank(u.control, |u.threads|, |u.workers|) < ControlRank(s.control, |s.threads|, |s.workers|)
  }

  lemma CallDropsResize(s: Pool, a: Action)
    requires (a.Grown? || a.Shrunk?) && ControlEnabled(s, a)
    ensures CallDrops(s, ControlStep(s, a))
  {
  }

  lemma CallDropsStop(s: Pool, a: Action)
    requires (a.Flagged? || a.JoinOne? || a.Joined?) && ControlEnabled(s, a)
    ensures CallDrops(s, ControlStep(s, a))
  {
    hide At;
  }

  lemma CallDropsCleared(s: Pool)
    requires ControlEnabled(s, Cleared)
    ensures CallDrops(s, ControlStep(s, Cleared))
  {
  }

  lemma CallDropsNotify(s: Pool, a: Action)
    requires (a.ControlLock? || a.ControlUnlock?) && ControlEnabled(s, a)
    ensures CallDrops(s, ControlStep(s, a))
  {
  }

  lemma CallStepRank(s: Pool, a: Action)
    requires a.Grown? || a.Shrunk? || a.Flagged? || a.ClearOne? || a.Cleared? || a.ControlLock? || a.ControlUnlock?
      || a.JoinOne? || a.Joined?
    requires ControlEnabled(s, a)
    ensures Rank(ControlStep(s, a)) < Rank(s)
  {
    if a.ClearOne? {
      hide ControlRank, WorkerRanks, PusherRanks, Units;
    } else {
      if a.Grown? || a.Shrunk? { CallDropsResize(s, a); }
      else if a.Flagged? || a.JoinOne? || a.Joined? { CallDropsStop(s, a); }
      else if a.Cleared? { CallDropsCleared(s); }
      else { CallDropsNotify(s, a); }
      hide ControlStep, ControlEnabled, ControlRank, Load;
    }
  }

  /** Every step but a new call, or a spurious wakeup before isDone is set, brings the pool nearer to rest. */
  lemma StepRank(s: Pool, a: Action)
    requires Enabled(s, a) && Settling(s, a)
    ensures Rank(After(s, a)) < Rank(s)
  {
    hide Rank, WorkerEnabled, PushEnabled, ControlStep;
    if IsWorkerAction(a) { WorkerStepRank(s, a); }
    else if IsPushAction(a) { PushStepRank(s, a); }
    else if a.NotifyAll? { NotifyAllRank(s); }
    else if a.Spawn? || a.FlagOff? || a.FlagOn? { ThreadStepRank(s, a); }
    else { CallStepRank(s, a); }
  }

  predicate AllProgress(acts: seq<Action>) { forall a | a in acts :: Progress(a) }

  /** The actions acts are quiet, and none is a spurious wakeup unless isDone is set already. */
  lemma {:induction false} RunRank(s: Pool, acts: seq<Action>, t: Pool)
    requires Inv(s) && Run(s, acts, t) && AllQuiet(acts) && (s.isDone || AllProgress(acts))
    ensures Inv(t) && |acts| + Rank(t) <= Rank(s)
    decreases |acts|
  {
    hide Inv, After, Enabled, Quiet, Progress, Rank;
    if acts != [] {
      var a := acts[0];
      assert a in acts && forall b | b in acts[1..] :: b in acts;
      StepKeepsInv(s, a);
      ProgressSettles(a);
      StepRank(s, a);
      if s.isDone { DoneStays(s, a); }
      RunRank(After(s, a), acts[1..], t);
    }
  }

  lemma ProgressSettles(a: Action)
    ensures Progress(a) <==> Quiet(a) && !a.Spurious?
  {
  }

  lemma DoneStays(s: Pool, a: Action)
    requires Enabled(s, a) && s.isDone
    ensures After(s, a).isDone
  {
    hide NewPc, WakeAll;
  }

  /** A call to resize or stop can always go on. */
  lemma CallGoesOn(s: Pool)
    requires Inv(s) && !s.control.Idle?
    ensures CanProgress(s)
  {
    var c := s.control;
    if c.Growing? && |s.threads| < c.n {
      var w := FreshId(s.workers.Keys);
      assert Progress(Spawn(w)) && Enabled(s, Spawn(w));
    } else if c.Joining? && c.i < |s.threads| {
      JoinGoesOn(s);
    } else if c.HoldNotify? || c.AfterNotify? || (c.BeforeNotify? && !s.mutex.Free?) {
      OwnerMoves(s);
    } else {
      var a := if c.Growing? then Grown
        else if c.Shrinking? then (if c.n < c.i then FlagOff else Shrunk)
        else if c.Flagging? then (if c.i < |s.threads| then FlagOn else Flagged)
        else if c.BeforeNotify? then ControlLock
        else if c.Joining? then Joined
        else if s.queue == [] then Cleared else ClearOne;
      assert Progress(a) && Enabled(s, a);
    }
  }

  lemma {:induction false} FreshId(ids: set<Id>) returns (w: Id)
    ensures forall v | v in ids :: v < w
    decreases |ids|
  {
    if ids == {} {
      w := 0;
    } else {
      var v :| v in ids;
      var m := FreshId(ids - {v});
      w := if m <= v then v + 1 else m;
      assert forall u | u in ids :: u == v || u in ids - {v};
    }
  }

  /** stop(true) returns, however the threads are scheduled and whatever spurious wakeups there are: with no new call, no
      run takes more than Rank steps, and a run that cannot go on has reached the end of stop. */
  lemma StopReturns(s: Pool, acts: seq<Action>, t: Pool)
    requires Reachable(s) && s.control.Idle? && !s.isDone && !s.isStop
    requires Run(After(s, Stop(true)), acts, t) && AllQuiet(acts)
    ensures |acts| <= Rank(After(s, Stop(true)))
    ensures t.control.Idle? || CanProgress(t)
  {
    ReachableInv(s);
    StepKeepsInv(s, Stop(true));
    RunRank(After(s, Stop(true)), acts, t);
    hide Inv, Run, Rank, After;
    if !t.control.Idle? { CallGoesOn(t); }
  }

  /** Nobody is inside push, resize or stop, and every worker is asleep or has exited. */
  ghost predicate AtRest(s: Pool) {
    s.control.Idle? && s.pushers == map[]
    && forall w | w in s.workers :: s.workers[w].pc.Sleeping? || s.workers[w].pc.Exited?
  }

  /** Left alone, without spurious wakeups, the pool comes to rest within Rank steps, so every resize, stop and push
      returns; and if a worker is still alive then, every pushed task has been executed or was cleared. */
  lemma ComesToRest(s: Pool, acts: seq<Action>, t: Pool, w: Id, x: Task)
    requires Reachable(s) && Run(s, acts, t) && AllProgress(acts)
    ensures |acts| <= Rank(s)
    ensures CanProgress(t) || AtRest(t)
    ensures AtRest(t) && At(t, w, Sleeping) && x in t.pushed ==> x in t.executed || x in t.cleared
  {
    ReachableInv(s);
    RunRank(s, acts, t);
    hide Run, Rank, Inv, CanProgress, AtRest;
    RestOrProgress(t);
    if AtRest(t) && At(t, w, Sleeping) && x in t.pushed { RestedTasks(t, w, x); }
  }

  lemma RestedTasks(t: Pool, w: Id, x: Task)
    requires Inv(t) && AtRest(t) && At(t, w, Sleeping) && x in t.pushed
    ensures x in t.executed || x in t.cleared
  {
    assert Pending(t.pushers) == {} && Resuming(t.workers) == {};
    assert WakeupOk(t) && TasksOk(t);
    assert t.queue == [];
    assert !HeldBySome(t.workers, x);
  }

  lemma RestOrProgress(s: Pool)
    requires Inv(s)
    ensures CanProgress(s) || AtRest(s)
  {
    if !s.control.Idle? {
      CallGoesOn(s);
    } else if !s.mutex.Free? {
      OwnerMoves(s);
    } else if p :| p in s.pushers {
      assert Progress(PushLock(p)) && Enabled(s, PushLock(p));
    } else if w :| w in s.workers && !s.workers[w].pc.Sleeping? && !s.workers[w].pc.Exited? {
      WorkerMoves(s, w);
    } else {
      assert s.pushers == map[];
    }
  }

  // ------------------------------------------------ what calls leave behind

  /** The threads of s from position i on have been told to leave. */
  ghost predicate ToldFrom(s: Pool, t: Pool, i: int) { forall k | 0 <= k && i <= k < |s.threads| :: FlagOf(t, s.threads[k]) }

  /** Threads behind those of s are new ones. */
  ghost predicate NewFrom(s: Pool, t: Pool) {
    s.threads <= t.threads && forall k | |s.threads| <= k < |t.threads| :: t.threads[k] !in s.workers && t.threads[k] in t.workers
  }

  /** A resize(n) called in s, or what it has left, in t. */
  ghost predicate Resizing(s: Pool, n: nat, t: Pool) {
    && (forall w | w in s.workers :: w in t.workers)
    && if |s.threads| <= n then
         NewFrom(s, t) && |t.threads| <= n && (t.control == Growing(n) || (t.control.Idle? && |t.threads| == n))
       else
         match t.control
         case Shrinking(m, i) => m == n && n <= i <= |s.threads| && t.threads == s.threads && ToldFrom(s, t, i)
         case BeforeNotify(next) => next == Truncate(n) && t.threads == s.threads && ToldFrom(s, t, n)
         case HoldNotify(next) => next == Truncate(n) && t.threads == s.threads && ToldFrom(s, t, n)
         case AfterNotify(next) => next == Truncate(n) && t.threads == s.threads && ToldFrom(s, t, n)
         case Idle => t.threads == s.threads[..n] && ToldFrom(s, t, n)
         case _ => false
  }

  lemma ResizingFrame(s: Pool, n: nat, t: Pool, u: Pool)
    requires Resizing(s, n, t) && u.control == t.control && u.threads == t.threads && u.workers.Keys == t.workers.Keys
    requires forall w :: FlagOf(u, w) == FlagOf(t, w)
    ensures Resizing(s, n, u)
  {
    hide FlagOf;
  }

  lemma ResizingWorker(s: Pool, n: nat, t: Pool, a: Action)
    requires Resizing(s, n, t) && IsWorkerAction(a) && WorkerEnabled(t, a)
    ensures Resizing(s, n, WorkerStep(t, a))
  {
    var u := WorkerStep(t, a);
    hide NewPc, WorkerEnabled, TakesHead;
    assert forall w :: FlagOf(u, w) == FlagOf(t, w);
    hide Resizing;
    ResizingFrame(s, n, t, u);
  }

  lemma ResizingPush(s: Pool, n: nat, t: Pool, a: Action)
    requires Resizing(s, n, t) && IsPushAction(a) && PushEnabled(t, a)
    ensures Resizing(s, n, PushStep(t, a))
  {
    var u := PushStep(t, a);
    assert forall w :: FlagOf(u, w) == FlagOf(t, w);
    hide Resizing;
    ResizingFrame(s, n, t, u);
  }

  lemma ResizingGrows(s: Pool, n: nat, t: Pool, a: Action)
    requires Resizing(s, n, t) && |s.threads| <= n && (a.Spawn? || a.Grown?) && ControlEnabled(t, a)
    ensures Resizing(s, n, ControlStep(t, a))
  {
    var u := ControlStep(t, a);
    assert forall k | 0 <= k < |t.threads| :: u.threads[k] == t.threads[k];
  }

  lemma ResizingFlags(s: Pool, n: nat, t: Pool)
    requires Resizing(s, n, t) && |s.threads| > n && ControlEnabled(t, FlagOff)
    ensures Resizing(s, n, ControlStep(t, FlagOff))
  {
    var u := ControlStep(t, FlagOff);
    assert forall w | FlagOf(t, w) :: FlagOf(u, w);
    assert FlagOf(u, s.threads[t.control.i - 1]);
    hide FlagOf;
  }

  lemma ResizingNotifies(s: Pool, n: nat, t: Pool, a: Action)
    requires Resizing(s, n, t) && |s.threads| > n && (a.Shrunk? || a.ControlLock? || a.NotifyAll? || a.ControlUnlock?)
    requires ControlEnabled(t, a)
    ensures Resizing(s, n, ControlStep(t, a))
  {
    var u := ControlStep(t, a);
    assert forall w :: FlagOf(u, w) == FlagOf(t, w);
    hide FlagOf, WakeAll;
  }

  lemma ResizingStep(s: Pool, n: nat, t: Pool, a: Action)
    requires Resizing(s, n, t) && Enabled(t, a) && Quiet(a)
    ensures Resizing(s, n, After(t, a))
  {
    if IsWorkerAction(a) { hide Resizing; ResizingWorker(s, n, t, a); }
    else if IsPushAction(a) { hide Resizing; ResizingPush(s, n, t, a); }
    else {
      hide ControlStep, ToldFrom, NewFrom;
      if a.Spawn? || a.Grown? { ResizingGrows(s, n, t, a); }
      else if a.FlagOff? { ResizingFlags(s, n, t); }
      else { ResizingNotifies(s, n, t, a); }
    }
  }

  lemma {:induction false} ResizingRun(s: Pool, n: nat, t: Pool, acts: seq<Action>, u: Pool)
    requires Resizing(s, n, t) && Run(t, acts, u) && AllQuiet(acts)
    ensures Resizing(s, n, u)
    decreases |acts|
  {
    hide Resizing, Enabled, After, Quiet;
    if acts != [] {
      assert acts[0] in acts && forall b | b in acts[1..] :: b in acts;
      ResizingStep(s, n, t, acts[0]);
      ResizingRun(s, n, After(t, acts[0]), acts[1..], u);
    }
  }

  /** What resize(n) leaves, whatever the workers and clients do meanwhile: exactly n threads, none of them told to leave.
      Growing keeps all threads in place and adds new ones behind; shrinking keeps the first n and tells all others. */
  lemma ResizeLeaves(s: Pool, n: nat, acts: seq<Action>, t: Pool)
    requires Reachable(s) && s.control.Idle? && !s.isDone && !s.isStop
    requires Run(After(s, Resize(n)), acts, t) && AllQuiet(acts) && t.control.Idle?
    ensures |t.threads| == n && NoRepeats(t.threads)
    ensures forall w | w in t.threads :: w in t.workers && !t.workers[w].flag
    ensures |s.threads| <= n ==> s.threads <= t.threads && forall k | |s.threads| <= k < n :: t.threads[k] !in s.workers
    ensures |s.threads| > n ==> t.threads == s.threads[..n] && forall k | n <= k < |s.threads| :: FlagOf(t, s.threads[k])
  {
    ReachableInv(s);
    StepKeepsInv(s, Resize(n));
    RunKeepsInv(After(s, Resize(n)), acts, t);
    assert Resizing(s, n, After(s, Resize(n)));
    ResizingRun(s, n, After(s, Resize(n)), acts, t);
    QuietKeepsStop(After(s, Resize(n)), acts, t);
    hide Run, After;
    assert ThreadsOk(t) && CommandOk(t);
    forall w | w in t.threads ensures w in t.workers && !t.workers[w].flag {
      var k :| 0 <= k < |t.threads| && t.threads[k] == w;
      assert !FlagOf(t, t.threads[k]);
    }
  }

  /** Only stop sets isDone and isStop. */
  lemma {:induction false} QuietKeepsStop(s: Pool, acts: seq<Action>, t: Pool)
    requires Run(s, acts, t) && AllQuiet(acts)
    ensures t.isDone == s.isDone && t.isStop == s.isStop
    decreases |acts|
  {
    if acts != [] {
      assert acts[0] in acts && forall b | b in acts[1..] :: b in acts;
      QuietStepKeepsStop(s, acts[0]);
      hide After, Enabled, Quiet;
      QuietKeepsStop(After(s, acts[0]), acts[1..], t);
    }
  }

  lemma QuietStepKeepsStop(s: Pool, a: Action)
    requires Enabled(s, a) && Quiet(a)
    ensures After(s, a).isDone == s.isDone && After(s, a).isStop == s.isStop
  {
    hide NewPc, WakeAll, WorkerEnabled, PushEnabled, ControlEnabled, TakesHead;
    if !IsWorkerAction(a) && !IsPushAction(a) {
      hide IsWorkerAction, IsPushAction, WorkerStep, PushStep;
    }
  }

  /** Calls on a pool that was stopped already change nothing. */
  lemma CallsAfterStop(s: Pool, n: nat)
    requires s.control.Idle?
    ensures s.isDone || s.isStop ==> After(s, Resize(n)) == s && After(s, Stop(true)) == s
    ensures s.isStop ==> After(s, Stop(false)) == s
  {
  }

  /** A stop over the threads ts, or what it has left. */
  ghost predicate Departing(ts: seq<Id>, t: Pool) {
    if t.control.Idle? then t.queue == [] && t.threads == [] && forall w | w in ts :: At(t, w, Exited)
    else t.threads == ts && (t.control.Flagging? || Stopping(t.control))
  }

  lemma StopWorker(ts: seq<Id>, t: Pool, a: Action)
    requires Departing(ts, t) && IsWorkerAction(a) && WorkerEnabled(t, a)
    ensures Departing(ts, WorkerStep(t, a))
  {
    assert !At(t, a.w, Exited);
    hide NewPc, WorkerEnabled;
  }

  lemma StopPush(ts: seq<Id>, t: Pool, a: Action)
    requires Departing(ts, t) && IsPushAction(a) && PushEnabled(t, a) && Quiet(a)
    ensures Departing(ts, PushStep(t, a))
  {
    if a.NotifyOne? && a.woken.Some? { assert !At(t, a.woken.value, Exited); }
  }

  lemma StopControl(ts: seq<Id>, t: Pool, a: Action)
    requires Departing(ts, t) && ThreadsOk(t) && !IsWorkerAction(a) && !IsPushAction(a) && ControlEnabled(t, a) && Quiet(a)
    ensures Departing(ts, ControlStep(t, a))
  {
    if a.Cleared? && t.control.FinalClearing? {
      assert AllExited(t, |t.threads|);
      forall w | w in ts ensures At(t, w, Exited) { var k :| 0 <= k < |ts| && ts[k] == w; }
    } else {
      assert !ControlStep(t, a).control.Idle?;
    }
  }

  lemma {:induction false} StopRun(ts: seq<Id>, s: Pool, acts: seq<Action>, t: Pool)
    requires Inv(s) && Departing(ts, s) && Run(s, acts, t) && AllQuiet(acts)
    ensures Departing(ts, t)
    decreases |acts|
  {
    if acts != [] {
      var a := acts[0];
      assert a in acts && forall b | b in acts[1..] :: b in acts;
      StepKeepsInv(s, a);
      assert ThreadsOk(s);
      assert Departing(ts, After(s, a)) by {
        hide Departing, WorkerStep, PushStep, ControlStep, ThreadsOk;
        if IsWorkerAction(a) { StopWorker(ts, s, a); }
        else if IsPushAction(a) { StopPush(ts, s, a); }
        else { StopControl(ts, s, a); }
      }
      hide Departing, Inv, After, Enabled, Quiet;
      StopRun(ts, After(s, a), acts[1..], t);
    }
  }

  /** What either stop leaves: an empty queue, no threads, every former thread exited, and the stop recorded. */
  lemma StopLeaves(s: Pool, isWait: bool, acts: seq<Action>, t: Pool)
    requires Reachable(s) && s.control.Idle? && !s.isStop && (isWait ==> !s.isDone)
    requires Run(After(s, Stop(isWait)), acts, t) && AllQuiet(acts) && t.control.Idle?
    ensures t.queue == [] && t.threads == [] && forall w | w in s.threads :: At(t, w, Exited)
    ensures (t.isDone <==> s.isDone || isWait) && (t.isStop <==> !isWait)
  {
    ReachableInv(s);
    StepKeepsInv(s, Stop(isWait));
    assert Departing(s.threads, After(s, Stop(isWait)));
    QuietKeepsStop(After(s, Stop(isWait)), acts, t);
    hide Inv, Run;
    StopRun(s.threads, After(s, Stop(isWait)), acts, t);
  }

  /** How many functions a worker that has been told to leave may still run. */
  function MayRun(pc: WorkerPc): nat {
    if pc.Finished? || pc.CheckFlag? || pc.CheckDone? || pc.Exited? || pc == Leaving(None) || pc == Unlocking(None) then 0 else 1
  }

  function Executions(acts: seq<Action>, w: Id): nat {
    if acts == [] then 0 else (if acts[0] == Execute(w) then 1 else 0) + Executions(acts[1..], w)
  }

  lemma ToldPc(s: Pool, a: Action)
    requires IsWorkerAction(a) && WorkerEnabled(s, a) && s.workers[a.w].flag
    ensures MayRun(NewPc(s, a)) + (if a.Execute? then 1 else 0) <= MayRun(s.workers[a.w].pc)
  {
  }

  lemma ToldControl(s: Pool, w: Id, a: Action)
    requires w in s.workers && s.workers[w].flag && !IsWorkerAction(a) && !IsPushAction(a) && ControlEnabled(s, a)
    ensures var u := ControlStep(s, a); w in u.workers && u.workers[w].flag && MayRun(u.workers[w].pc) == MayRun(s.workers[w].pc)
  {
    if a.NotifyAll? { assert MayRun(Woken) == MayRun(Sleeping); } else { ControlPcs(s, a); }
    hide MayRun;
  }

  lemma ToldPush(s: Pool, w: Id, a: Action)
    requires w in s.workers && s.workers[w].flag && IsPushAction(a) && PushEnabled(s, a)
    ensures var u := PushStep(s, a); w in u.workers && u.workers[w].flag && MayRun(u.workers[w].pc) == MayRun(s.workers[w].pc)
  {
    assert MayRun(Woken) == MayRun(Sleeping);
    hide MayRun;
  }

  lemma ToldStep(s: Pool, w: Id, a: Action)
    requires w in s.workers && s.workers[w].flag && Enabled(s, a)
    ensures w in After(s, a).workers && After(s, a).workers[w].flag
    ensures MayRun(After(s, a).workers[w].pc) + (if a == Execute(w) then 1 else 0) <= MayRun(s.workers[w].pc)
  {
    if IsWorkerAction(a) {
      if a.w == w { ToldPc(s, a); }
      hide NewPc, MayRun, WorkerEnabled, TakesHead;
    } else if IsPushAction(a) {
      ToldPush(s, w, a);
      hide PushStep, MayRun;
    } else {
      ToldControl(s, w, a);
      hide ControlStep, MayRun;
    }
  }

  /** A worker that has been told to leave runs at most one more function, with or without anything queued. */
  lemma {:induction false} ToldRunsOnce(s: Pool, w: Id, acts: seq<Action>, t: Pool)
    requires w in s.workers && s.workers[w].flag && Run(s, acts, t)
    ensures w in t.workers && t.workers[w].flag
    ensures Executions(acts, w) + MayRun(t.workers[w].pc) <= MayRun(s.workers[w].pc) <= 1
    decreases |acts|
  {
    if acts != [] {
      ToldStep(s, w, acts[0]);
      hide After, Enabled, MayRun;
      ToldRunsOnce(After(s, acts[0]), w, acts[1..], t);
    }
  }

  /** Once the pool is at rest, exactly the workers that were told to leave have exited, unless stop(true) was called. */
  lemma RestedWorkers(s: Pool, w: Id)
    requires Reachable(s) && AtRest(s) && w in s.workers
    ensures s.workers[w].flag ==> s.workers[w].pc.Exited?
    ensures s.workers[w].pc.Exited? ==> s.workers[w].flag || s.isDone
  {
    ReachableInv(s);
    assert SignalsOk(s);
  }

  // ------------------------------------------------------- queue order

  function PushedIn(acts: seq<Action>): seq<Task> {
    if acts == [] then [] else (if acts[0].Push? then [acts[0].t] else []) + PushedIn(acts[1..])
  }

  lemma QueueStep(s: Pool, a: Action) returns (d: nat)
    requires Enabled(s, a)
    ensures d <= 1 && d <= |s.queue| && After(s, a).queue == s.queue[d..] + (if a.Push? then [a.t] else [])
  {
    hide NewPc, WakeAll;
    if IsWorkerAction(a) {
      d := if TakesHead(s, a) then 1 else 0;
    } else if IsPushAction(a) {
      d := if a.Take? then 1 else 0;
    } else if a.ClearOne? {
      d := 1;
    } else {
      d := 0;
      ControlQueue(s, a);
      hide ControlStep, ControlEnabled;
    }
  }

  /** The queue is first in, first out: over any run it is what was queued followed by what was pushed, in order, with some
      number of functions taken off the front. */
  lemma {:induction false} FirstInFirstOut(s: Pool, acts: seq<Action>, t: Pool) returns (d: nat)
    requires Run(s, acts, t)
    ensures d <= |s.queue + PushedIn(acts)| && t.queue == (s.queue + PushedIn(acts))[d..]
    decreases |acts|
  {
    if acts == [] {
      d := 0;
      assert s.queue + [] == s.queue;
    } else {
      var d0 := QueueStep(s, acts[0]);
      hide After, Enabled;
      var u, rest := After(s, acts[0]), PushedIn(acts[1..]);
      var d1 := FirstInFirstOut(u, acts[1..], t);
      d := d0 + d1;
      QueueJoin(s.queue, if acts[0].Push? then [acts[0].t] else [], rest, d0, d1);
    }
  }

  lemma QueueJoin(q: seq<Task>, now: seq<Task>, rest: seq<Task>, d: nat, e: nat)
    requires d <= |q| && e <= |q[d..] + now + rest|
    ensures (q[d..] + now + rest)[e..] == (q + (now + rest))[d + e..]
  {
    assert q[d..] + now + rest == (q + (now + rest))[d..];
  }

  lemma PushedStep(s: Pool, a: Action)
    requires Enabled(s, a)
    ensures After(s, a).pushed == s.pushed + (if a.Push? then {a.t} else {})
    ensures a.Push? ==> a.t !in s.pushed
  {
    hide NewPc, WakeAll;
    if !IsWorkerAction(a) && !IsPushAction(a) && !a.ClearOne? {
      ControlQueue(s, a);
      hide ControlStep, ControlEnabled;
    }
  }

  lemma {:induction false} PushedAreNew(s: Pool, acts: seq<Action>, t: Pool)
    requires Run(s, acts, t)
    ensures Distinct(PushedIn(acts)) && forall x | x in PushedIn(acts) :: x !in s.pushed
    decreases |acts|
  {
    if acts != [] {
      PushedStep(s, acts[0]);
      hide After, Enabled;
      PushedAreNew(After(s, acts[0]), acts[1..], t);
    }
  }

  lemma DistinctJoin(q: seq<Task>, r: seq<Task>)
    requires Distinct(q) && Distinct(r) && forall x | x in r :: x !in q
    ensures Distinct(q + r)
  {
    assert forall i | 0 <= i < |q| :: q[i] in q;
    assert forall i | 0 <= i < |r| :: r[i] in r;
  }

  /** Of two functions the one queued or pushed earlier leaves the queue first. */
  lemma EarlierLeavesFirst(s: Pool, acts: seq<Action>, t: Pool, i: nat, j: nat)
    requires Reachable(s) && Run(s, acts, t) && i < j < |s.queue + PushedIn(acts)|
    ensures var q := s.queue + PushedIn(acts); q[i] in t.queue ==> q[j] in t.queue
  {
    ReachableInv(s);
    assert TasksOk(s);
    PushedAreNew(s, acts, t);
    var d := FirstInFirstOut(s, acts, t);
    DistinctJoin(s.queue, PushedIn(acts));
    hide Inv, Run, TasksOk;
    var q := s.queue + PushedIn(acts);
    if q[i] in t.queue {
      var k :| 0 <= k < |t.queue| && t.queue[k] == q[i];
      assert q[d + k] == q[i];
      assert d + k == i;
      assert t.queue[j - d] == q[j];
    }
  }

  // --------------------------------- a stop(true) that clears the queue

  /** One step more at the end of a run. */
  lemma {:induction false} RunStep(s: Pool, x: seq<Action>, t: Pool, a: Action)
    requires Run(s, x, t) && Enabled(t, a)
    ensures Run(s, x + [a], After(t, a))
    decreases |x|
  {
    hide Enabled, After;
    var y := x + [a];
    if x == [] {
      assert y[1..] == [];
      assert Run(After(t, a), [], After(t, a));
    } else {
      RunStep(After(s, x[0]), x[1..], t, a);
      assert y[0] == x[0] && y[1..] == x[1..] + [a];
    }
  }

  lemma EmptyRun(s: Pool)
    ensures Run(s, [], s)
  {
  }

  /** If the pool does not drain, it has one thread, and that thread owns the mutex. */
  lemma OneThread(s: Pool)
    requires Inv(s) && Stoppable(s) && !Drains(s)
    ensures |s.threads| == 1 && s.threads[0] in s.workers && s.workers[s.threads[0]] == Worker(CheckDone, false)
    ensures s.mutex == ByWorker(s.threads[0])
  {
    UntoldThreads(s);
    var ts := s.threads;
    assert ts[0] in ts && ts[|ts| - 1] in ts;
    assert s.mutex == ByWorker(ts[|ts| - 1]);
  }

  /** A stop(true) over the one thread w. */
  ghost predicate LastThread(s: Pool, w: Id, pc: WorkerPc, control: ControlPc, mutex: Owner,
                             queue: seq<Task>, cleared: seq<Task>)
  {
    && w in s.workers && s.workers[w] == Worker(pc, false) && s.threads == [w] && s.isDone
    && s.control == control && s.mutex == mutex && s.queue == queue && s.cleared == cleared
  }

  /** The thread reads isDone and exits. */
  lemma ThreadLeaves(u: Pool, w: Id, q: seq<Task>, cleared: seq<Task>) returns (x: seq<Action>, t: Pool)
    requires LastThread(u, w, CheckDone, BeforeNotify(Join), ByWorker(w), q, cleared)
    ensures Run(u, x, t) && AllQuiet(x) && LastThread(t, w, Exited, BeforeNotify(Join), Free, q, cleared)
  {
    EmptyRun(u);
    hide Run;
    x, t := [], u;
    RunStep(u, x, t, ReadDone(w)); x, t := x + [ReadDone(w)], After(t, ReadDone(w));
    assert LastThread(t, w, Leaving(None), BeforeNotify(Join), ByWorker(w), q, cleared);
    RunStep(u, x, t, Leave(w)); x, t := x + [Leave(w)], After(t, Leave(w));
    assert LastThread(t, w, Unlocking(None), BeforeNotify(Join), ByWorker(w), q, cleared);
    RunStep(u, x, t, Unlock(w)); x, t := x + [Unlock(w)], After(t, Unlock(w));
  }

  /** stop notifies. */
  lemma ThreadNotified(u: Pool, x0: seq<Action>, t0: Pool, w: Id, q: seq<Task>, cleared: seq<Task>)
    returns (x: seq<Action>, t: Pool)
    requires Run(u, x0, t0) && AllQuiet(x0) && LastThread(t0, w, Exited, BeforeNotify(Join), Free, q, cleared)
    ensures Run(u, x, t) && AllQuiet(x) && LastThread(t, w, Exited, Joining(0), Free, q, cleared)
  {
    hide Run;
    x, t := x0, t0;
    RunStep(u, x, t, ControlLock); x, t := x + [ControlLock], After(t, ControlLock);
    assert LastThread(t, w, Exited, HoldNotify(Join), ByControl, q, cleared);
    RunStep(u, x, t, NotifyAll); x, t := x + [NotifyAll], After(t, NotifyAll);
    assert LastThread(t, w, Exited, AfterNotify(Join), ByControl, q, cleared);
    RunStep(u, x, t, ControlUnlock); x, t := x + [ControlUnlock], After(t, ControlUnlock);
  }

  /** stop joins the exited thread. */
  lemma ThreadJoined(u: Pool, x0: seq<Action>, t0: Pool, w: Id, q: seq<Task>, cleared: seq<Task>)
    returns (x: seq<Action>, t: Pool)
    requires Run(u, x0, t0) && AllQuiet(x0) && LastThread(t0, w, Exited, Joining(0), Free, q, cleared)
    ensures Run(u, x, t) && AllQuiet(x) && LastThread(t, w, Exited, FinalClearing, Free, q, cleared)
  {
    hide Run;
    x, t := x0, t0;
    RunStep(u, x, t, JoinOne); x, t := x + [JoinOne], After(t, JoinOne);
    assert LastThread(t, w, Exited, Joining(1), Free, q, cleared);
    RunStep(u, x, t, Joined); x, t := x + [Joined], After(t, Joined);
  }

  /** What is still queued is cleared. */
  lemma {:induction false} QueueCleared(u: Pool, x0: seq<Action>, t0: Pool, w: Id, q: seq<Task>, cleared: seq<Task>)
    returns (x: seq<Action>, t: Pool)
    requires Run(u, x0, t0) && AllQuiet(x0) && LastThread(t0, w, Exited, FinalClearing, Free, q, cleared)
    ensures Run(u, x, t) && AllQuiet(x) && t.control.Idle? && t.cleared == cleared + q
    decreases |q|
  {
    hide Run;
    var a := if q == [] then Cleared else ClearOne;
    RunStep(u, x0, t0, a);
    x, t := x0 + [a], After(t0, a);
    if q != [] {
      x, t := QueueCleared(u, x, t, w, q[1..], cleared + [q[0]]);
      assert cleared + [q[0]] + q[1..] == cleared + q;
    } else {
      assert cleared + q == cleared;
    }
  }

  /** If the only thread stands before reading isDone with anything queued, stop(true) can return with the whole queue
      cleared and none of it executed. */
  lemma StopLosesQueue(s: Pool) returns (acts: seq<Action>, t: Pool)
    requires Reachable(s) && Stoppable(s) && !Drains(s)
    ensures Stopped(s, acts, t) && t.cleared == s.cleared + s.queue && t.cleared != s.cleared
  {
    ReachableInv(s);
    OneThread(s);
    var w, u := s.threads[0], After(s, Stop(true));
    assert LastThread(u, w, CheckDone, BeforeNotify(Join), ByWorker(w), s.queue, s.cleared);
    hide Inv, Run, LastThread;
    acts, t := ThreadLeaves(u, w, s.queue, s.cleared);
    acts, t := ThreadNotified(u, acts, t, w, s.queue, s.cleared);
    acts, t := ThreadJoined(u, acts, t, w, s.queue, s.cleared);
    acts, t := QueueCleared(u, acts, t, w, s.queue, s.cleared);
    assert |t.cleared| == |s.cleared| + |s.queue|;
  }

  /** The promise of stop(true), exactly: every quiet run of it returns with the queue empty and nothing cleared if and
      only if nothing is queued or some thread does not stand between a failed q.pop and reading isDone. */
  lemma StopPromise(s: Pool)
    requires Reachable(s) && Stoppable(s)
    ensures (forall acts, t | Stopped(s, acts, t) :: t.queue == [] && t.cleared == s.cleared) <==> Drains(s)
  {
    hide Stopped, Reachable, Drains;
    if Drains(s) {
      forall acts, t | Stopped(s, acts, t) ensures t.queue == [] && t.cleared == s.cleared {
        StopRunsEverything(s, acts, t, 0);
      }
    } else {
      var acts, t := StopLosesQueue(s);
    }
  }

  /** Two threads, or no push between q.push and notify_one, are enough. */
  lemma EnoughToDrain(s: Pool)
    requires Reachable(s) && Stoppable(s) && (|s.threads| >= 2 || Pending(s.pushers) == {})
    ensures Drains(s)
  {
    ReachableInv(s);
    if !Drains(s) {
      OneThread(s);
    }
  }

  /** Pools with the one thread 0, unflagged, and nothing executed or cleared. */
  ghost predicate Single(s: Pool, queue: seq<Task>, pc: WorkerPc, control: ControlPc, mutex: Owner) {
    && s.workers.Keys == {0} && s.workers[0] == Worker(pc, false) && s.threads == [0] && s.pushed == (set t | t in queue)
    && (queue == [] ==> s.pushers == map[])
    && s.queue == queue && s.control == control && s.mutex == mutex && !s.isDone && !s.isStop
    && s.executed == [] && s.cleared == []
  }

  lemma FirstSteps() returns (x: seq<Action>, s: Pool)
    ensures Run(INIT, x, s) && Single(s, [], Locking, Idle, Free)
  {
    EmptyRun(INIT);
    hide Run;
    x, s := [], INIT;
    RunStep(INIT, x, s, Resize(1)); x, s := x + [Resize(1)], After(s, Resize(1));
    assert s.control == Growing(1) && s.threads == [] && s.workers == map[];
    RunStep(INIT, x, s, Spawn(0)); x, s := x + [Spawn(0)], After(s, Spawn(0));
    assert Single(s, [], Starting, Growing(1), Free);
    RunStep(INIT, x, s, Grown); x, s := x + [Grown], After(s, Grown);
    assert Single(s, [], Starting, Idle, Free);
    RunStep(INIT, x, s, Pop(0)); x, s := x + [Pop(0)], After(s, Pop(0));
  }

  /** The worker finds the queue empty, then a client queues task 7 without having notified yet. */
  lemma OverlapReached() returns (x: seq<Action>, s: Pool)
    ensures Run(INIT, x, s) && Single(s, [7], CheckDone, Idle, ByWorker(0))
  {
    hide Run;
    x, s := FirstSteps();
    RunStep(INIT, x, s, Lock(0)); x, s := x + [Lock(0)], After(s, Lock(0));
    assert Single(s, [], Entering, Idle, ByWorker(0));
    RunStep(INIT, x, s, Enter(0)); x, s := x + [Enter(0)], After(s, Enter(0));
    assert Single(s, [], Arriving, Idle, ByWorker(0));
    RunStep(INIT, x, s, Check(0)); x, s := x + [Check(0)], After(s, Check(0));
    assert Single(s, [], CheckDone, Idle, ByWorker(0));
    RunStep(INIT, x, s, Push(0, 7)); x, s := x + [Push(0, 7)], After(s, Push(0, 7));
  }

  /** The promise does fail: a pool is reachable from which stop(true) can clear a function that push had queued. */
  lemma OverlappingPushIsCleared() returns (s: Pool, acts: seq<Action>, t: Pool)
    ensures Reachable(s) && Stoppable(s) && 7 in s.pushed && s.cleared == []
    ensures Stopped(s, acts, t) && t.cleared == [7]
  {
    var x;
    x, s := OverlapReached();
    assert s.threads == [0] && s.pushed == {7};
    hide Run;
    acts, t := StopLosesQueue(s);
  }
}
