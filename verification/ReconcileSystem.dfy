/** The reconcile runner as a whole: notifiers, the scheduler loop and the worker pool, interleaved
    at every point where they share state. */
module ReconcileSystem {
  import opened Reconcile

  datatype Worker = Idle | Running(req: Request) | Reporting(req: Request, outcome: Outcome) | Exited {
    predicate Occupied() { Running? || Reporting? }
  }

  /** Where the scheduler goroutine is. */
  datatype Pc =
    | Select                 // at the loop head, or blocked in its select
    | Woken                  // took a wake token, has not swapped the inbox yet
    | Firing(firedAt: int)   // popping due events
    | Dispatching            // between two hand-offs
    | Handing(req: Request)  // blocked sending a task
    | Returned

  /** `owed`, `log` and `triggers` are history: the keys notified since they were last taken from
      the queue, the keys taken so far, and every request for a round ever made. */
  datatype Sys = Sys(
    cfg: Config, inbox: set<Request>, posting: nat, wake: bool, cancelled: bool,
    pc: Pc, loop: Loop, pool: seq<Worker>,
    owed: set<Request>, log: seq<Request>, triggers: multiset<Request>)

  datatype Step =
    | NotifyInsert(req: Request)
    | NotifyPost
    | TakeWake
    | Drain(order: seq<Request>)
    | TimerFires(at: int)
    | FireOne(i: nat, listing: Listing)
    | FireDone
    | Pop
    | Hand(w: nat)
    | DispatchDone
    | RunEnds(w: nat, outcome: Outcome)
    | Report(w: nat, now: int)
    | Cancel
    | LoopReturns
    | WorkerExits(w: nat)

  predicate CanDispatch(s: Sys) {
    s.loop.busy < s.cfg.workers && s.loop.queue != []
  }

  predicate SomeDue(s: Sys, at: int) {
    exists i :: 0 <= i < |s.loop.events| && s.loop.events[i].at <= at
  }

  predicate Enabled(s: Sys, step: Step) {
    match step
    case NotifyInsert(req) => req.kind in s.cfg.regs
    case NotifyPost => s.posting > 0
    case TakeWake => s.pc.Select? && s.wake
    case Drain(order) => s.pc.Woken? && Distinct(order) && Elements(order) == s.inbox
    case TimerFires(at) => s.pc.Select? && SomeDue(s, at)
    case FireOne(i, _) => s.pc.Firing? && Earliest(s.loop.events, i) && s.loop.events[i].at <= s.pc.firedAt
    case FireDone => s.pc.Firing? && !SomeDue(s, s.pc.firedAt)
    case Pop => s.pc.Dispatching? && CanDispatch(s)
    case Hand(w) => s.pc.Handing? && w < |s.pool| && s.pool[w].Idle?
    case DispatchDone => s.pc.Dispatching? && !CanDispatch(s)
    case RunEnds(w, _) => w < |s.pool| && s.pool[w].Running?
    case Report(w, _) => s.pc.Select? && w < |s.pool| && s.pool[w].Reporting? && s.cfg.Valid() && s.loop.busy > 0
    case Cancel => true
    case LoopReturns => s.cancelled && (s.pc.Select? || s.pc.Handing?)
    case WorkerExits(w) => s.cancelled && w < |s.pool| && (s.pool[w].Idle? || s.pool[w].Reporting?)
  }

  function Apply(s: Sys, step: Step): Sys
    requires Enabled(s, step)
  {
    match step
    case NotifyInsert(req) =>
      s.(inbox := s.inbox + {req}, posting := s.posting + 1, owed := s.owed + {req},
         triggers := s.triggers + multiset{req})
    case NotifyPost => s.(posting := s.posting - 1, wake := true)
    case TakeWake => s.(wake := false, pc := Woken)
    case Drain(order) => s.(inbox := {}, loop := EnqueueAll(s.loop, order), pc := Dispatching)
    case TimerFires(at) => s.(pc := Firing(at))
    case FireOne(i, listing) =>
      s.(loop := FireEvent(s.cfg, s.loop, i, s.pc.firedAt, listing),
         triggers := s.triggers + multiset(Fired(s.cfg, s.loop.events[i], listing)))
    case FireDone => s.(pc := Dispatching)
    case Pop =>
      var req := s.loop.queue[0];
      s.(loop := PopFront(s.loop), pc := Handing(req), owed := s.owed - {req}, log := s.log + [req])
    case Hand(w) => s.(pool := s.pool[w := Running(s.pc.req)], pc := Dispatching)
    case DispatchDone => s.(pc := Select)
    case RunEnds(w, outcome) => s.(pool := s.pool[w := Reporting(s.pool[w].req, outcome)])
    case Report(w, now) =>
      s.(loop := Complete(s.cfg, s.loop, s.pool[w].req, s.pool[w].outcome, now),
         pool := s.pool[w := Idle], pc := Dispatching)
    case Cancel => s.(cancelled := true)
    case LoopReturns => s.(pc := Returned)
    case WorkerExits(w) => s.(pool := s.pool[w := Exited])
  }

  predicate Run(s: Sys, steps: seq<Step>, t: Sys)
    decreases |steps|
  {
    if steps == [] then s == t
    else Enabled(s, steps[0]) && Run(Apply(s, steps[0]), steps[1..], t)
  }

  // ----- The invariant

  function Occupied(pool: seq<Worker>): nat {
    if pool == [] then 0 else (if pool[0].Occupied() then 1 else 0) + Occupied(pool[1..])
  }

  /** No key is with two workers; every key a worker has, or is about to get, is in flight. */
  predicate PoolOk(s: Sys) {
    && |s.pool| == s.cfg.workers
    && (forall i :: 0 <= i < |s.pool| && s.pool[i].Occupied() ==> s.pool[i].req in s.loop.inFlight)
    && (forall i, j :: 0 <= i < j < |s.pool| && s.pool[i].Occupied() && s.pool[j].Occupied() ==>
          s.pool[i].req != s.pool[j].req)
    && (s.pc.Handing? ==> s.pc.req in s.loop.inFlight)
    && (s.pc.Handing? ==>
          forall i :: 0 <= i < |s.pool| && s.pool[i].Occupied() ==> s.pool[i].req != s.pc.req)
  }

  /** Until cancellation, `busy` counts the occupied workers and the task being handed over. */
  predicate Accounted(s: Sys) {
    !s.cancelled ==>
      && !s.pc.Returned?
      && (forall i :: 0 <= i < |s.pool| ==> !s.pool[i].Exited?)
      && s.loop.busy == Occupied(s.pool) + if s.pc.Handing? then 1 else 0
  }

  predicate NoLostUpdate(s: Sys) {
    s.owed <= s.inbox + s.loop.Waiting()
  }

  predicate WakeOwed(s: Sys) {
    s.inbox != {} ==> s.wake || s.posting > 0 || s.pc.Woken? || s.pc.Returned?
  }

  /** The loop never waits while it could hand out a key. */
  predicate WorkConserving(s: Sys) {
    s.pc.Select? || s.pc.Woken? ==> !CanDispatch(s)
  }

  /** No key is taken, waiting or notified more often than it was asked for. */
  ghost predicate Conserved(s: Sys) {
    forall r :: multiset(s.log)[r] + (if r in s.loop.Waiting() then 1 else 0)
              + (if r in s.inbox then 1 else 0) <= s.triggers[r]
  }

  ghost predicate Timed(s: Sys) {
    ResyncsScheduled(s.cfg, s.loop.events) && FailuresTracked(s.loop)
  }

  ghost predicate Inv(s: Sys) {
    && s.cfg.Valid() && Consistent(s.loop, s.cfg.workers)
    && PoolOk(s) && Accounted(s) && NoLostUpdate(s) && WakeOwed(s) && WorkConserving(s)
    && Conserved(s) && Timed(s)
    && (forall r :: r in s.inbox ==> r.kind in s.cfg.regs)
  }

  /** The state in which the loop starts; notifications may already have arrived. */
  ghost predicate Init(s: Sys) {
    && s.cfg.Valid() && s.pc.Select? && !s.cancelled
    && s.loop == Loop({}, [], {}, {}, map[], s.loop.events, 0)
    && ResyncsScheduled(s.cfg, s.loop.events)
    && |s.pool| == s.cfg.workers && (forall i :: 0 <= i < |s.pool| ==> s.pool[i].Idle?)
    && (forall r :: r in s.inbox ==> r.kind in s.cfg.regs)
    && (s.inbox != {} ==> s.wake || s.posting > 0)
    && s.owed == s.inbox && s.log == [] && s.triggers == multiset(s.inbox)
  }

  lemma {:induction false} NobodyOccupied(pool: seq<Worker>)
    requires forall i :: 0 <= i < |pool| ==> !pool[i].Occupied()
    ensures Occupied(pool) == 0
  {
    if pool != [] { NobodyOccupied(pool[1..]); }
  }

  lemma {:induction false} OccupiedUpdate(pool: seq<Worker>, w: nat, x: Worker)
    requires w < |pool|
    ensures Occupied(pool[w := x]) == Occupied(pool)
      + (if x.Occupied() then 1 else 0) - (if pool[w].Occupied() then 1 else 0)
  {
    if w > 0 {
      OccupiedUpdate(pool[1..], w - 1, x);
      assert pool[w := x][1..] == pool[1..][w - 1 := x];
    } else {
      assert pool[w := x][1..] == pool[1..];
    }
  }

  lemma {:induction false} OccupiedBound(pool: seq<Worker>)
    ensures Occupied(pool) <= |pool|
    ensures Occupied(pool) < |pool| ==> exists i :: 0 <= i < |pool| && !pool[i].Occupied()
    ensures Occupied(pool) > 0 ==> exists i :: 0 <= i < |pool| && pool[i].Occupied()
  {
    if pool != [] {
      OccupiedBound(pool[1..]);
      if Occupied(pool) < |pool| && pool[0].Occupied() {
        var i :| 0 <= i < |pool[1..]| && !pool[1..][i].Occupied();
        assert !pool[i+1].Occupied();
      }
      if Occupied(pool) > 0 && !pool[0].Occupied() {
        var i :| 0 <= i < |pool[1..]| && pool[1..][i].Occupied();
        assert pool[i+1].Occupied();
      }
    }
  }

  lemma InitInv(s: Sys)
    requires Init(s)
    ensures Inv(s)
  {
    NobodyOccupied(s.pool);
  }

  // ----- Every step keeps it

  lemma NotifyKeeps(s: Sys, step: Step)
    requires Inv(s) && Enabled(s, step) && (step.NotifyInsert? || step.NotifyPost? || step.Cancel?)
    ensures Inv(Apply(s, step))
  {
    var t := Apply(s, step);
    assert t.loop == s.loop && t.pool == s.pool;
    if step.NotifyInsert? {
      forall r ensures multiset(t.log)[r] + (if r in t.loop.Waiting() then 1 else 0)
                     + (if r in t.inbox then 1 else 0) <= t.triggers[r] {}
    }
  }

  /** Waiting keys may come from the inbox without changing what is owed or conserved. */
  lemma DrainConserves(s: Sys, step: Step)
    requires Conserved(s) && NoLostUpdate(s) && Enabled(s, step) && step.Drain?
    requires EnqueueAll(s.loop, step.order).Waiting() == s.loop.Waiting() + s.inbox
    ensures Conserved(Apply(s, step)) && NoLostUpdate(Apply(s, step))
  {
    var t := Apply(s, step);
    forall r ensures multiset(t.log)[r] + (if r in t.loop.Waiting() then 1 else 0)
                   + (if r in t.inbox then 1 else 0) <= t.triggers[r] {}
  }

  lemma DrainTimed(s: Sys, step: Step)
    requires Timed(s) && Enabled(s, step) && step.Drain?
    ensures Timed(Apply(s, step))
  {
    EnqueueAllKeeps(s.loop, step.order);
    var m := EnqueueAll(s.loop, step.order);
    forall r | r in m.fails
      ensures m.fails[r] > 0 && (r in m.pending || r in m.inFlight || CountIf(RetryOf(r), m.events) > 0) {}
  }

  lemma DrainKeeps(s: Sys, step: Step)
    requires Inv(s) && Enabled(s, step) && step.Drain?
    ensures Inv(Apply(s, step))
  {
    EnqueueAllConsistent(s.loop, step.order, s.cfg.workers);
    EnqueueAllKeeps(s.loop, step.order);
    DrainConserves(s, step);
    DrainTimed(s, step);
  }

  lemma FireOneKeeps(s: Sys, step: Step)
    requires Inv(s) && Enabled(s, step) && step.FireOne?
    ensures Inv(Apply(s, step))
  {
    FireEventKeeps(s.cfg, s.loop, step.i, s.pc.firedAt, step.listing);
    var reqs := Fired(s.cfg, s.loop.events[step.i], step.listing);
    var t := Apply(s, step);
    assert t.loop.Waiting() == s.loop.Waiting() + Elements(reqs);
    forall r ensures multiset(t.log)[r] + (if r in t.loop.Waiting() then 1 else 0)
                   + (if r in t.inbox then 1 else 0) <= t.triggers[r]
    {
      assert r in reqs ==> multiset(reqs)[r] >= 1;
    }
  }

  lemma LoopMovesKeep(s: Sys, step: Step)
    requires Inv(s) && Enabled(s, step)
    requires step.TakeWake? || step.TimerFires? || step.FireDone? || step.DispatchDone? || step.LoopReturns?
    ensures Inv(Apply(s, step))
  {
    var t := Apply(s, step);
    assert t.loop == s.loop && t.pool == s.pool && t.inbox == s.inbox;
  }

  lemma PopConserves(s: Sys, step: Step)
    requires Conserved(s) && Enabled(s, step) && step.Pop? && s.loop.queue[0] in s.loop.pending
    requires PopFront(s.loop).Waiting() == s.loop.Waiting() - {s.loop.queue[0]}
    ensures Conserved(Apply(s, step))
  {
    var t, req := Apply(s, step), s.loop.queue[0];
    forall r ensures multiset(t.log)[r] + (if r in t.loop.Waiting() then 1 else 0)
                   + (if r in t.inbox then 1 else 0) <= t.triggers[r]
    {
      assert multiset(t.log)[r] == multiset(s.log)[r] + if r == req then 1 else 0;
    }
  }

  lemma PopKeeps(s: Sys, step: Step)
    requires Inv(s) && Enabled(s, step) && step.Pop?
    ensures Inv(Apply(s, step))
  {
    PopFrontKeeps(s.loop, s.cfg.workers);
    PopConserves(s, step);
  }

  lemma WorkerPool(s: Sys, step: Step)
    requires PoolOk(s) && Accounted(s) && Enabled(s, step)
    requires step.Hand? || step.RunEnds? || step.WorkerExits?
    ensures PoolOk(Apply(s, step)) && Accounted(Apply(s, step))
  {
    var t := Apply(s, step);
    OccupiedUpdate(s.pool, step.w, t.pool[step.w]);
  }

  lemma WorkerKeeps(s: Sys, step: Step)
    requires Inv(s) && Enabled(s, step) && (step.Hand? || step.RunEnds? || step.WorkerExits?)
    ensures Inv(Apply(s, step))
  {
    WorkerPool(s, step);
    assert Apply(s, step).loop == s.loop;
  }

  lemma ReportPool(s: Sys, step: Step)
    requires PoolOk(s) && Accounted(s) && Enabled(s, step) && step.Report?
    requires Apply(s, step).loop.inFlight == s.loop.inFlight - {s.pool[step.w].req}
    requires Apply(s, step).loop.busy == s.loop.busy - 1
    ensures PoolOk(Apply(s, step)) && Accounted(Apply(s, step))
  {
    OccupiedUpdate(s.pool, step.w, Idle);
  }

  lemma ReportKeeps(s: Sys, step: Step)
    requires Inv(s) && Enabled(s, step) && step.Report?
    ensures Inv(Apply(s, step))
  {
    var t, worker := Apply(s, step), s.pool[step.w];
    CompleteConsistent(s.cfg, s.loop, worker.req, worker.outcome, step.now);
    CompleteQueue(s.cfg, s.loop, worker.req, worker.outcome, step.now);
    CompleteTracks(s.cfg, s.loop, worker.req, worker.outcome, step.now);
    ReportPool(s, step);
    assert t.loop.Waiting() == s.loop.Waiting() && t.inbox == s.inbox;
  }

  lemma StepKeepsInv(s: Sys, step: Step)
    requires Inv(s) && Enabled(s, step)
    ensures Inv(Apply(s, step))
  {
    match step
    case NotifyInsert(_) => NotifyKeeps(s, step);
    case NotifyPost => NotifyKeeps(s, step);
    case Cancel => NotifyKeeps(s, step);
    case Drain(_) => DrainKeeps(s, step);
    case FireOne(_, _) => FireOneKeeps(s, step);
    case Pop => PopKeeps(s, step);
    case Hand(_) => WorkerKeeps(s, step);
    case RunEnds(_, _) => WorkerKeeps(s, step);
    case WorkerExits(_) => WorkerKeeps(s, step);
    case Report(_, _) => ReportKeeps(s, step);
    case TakeWake => LoopMovesKeep(s, step);
    case TimerFires(_) => LoopMovesKeep(s, step);
    case FireDone => LoopMovesKeep(s, step);
    case DispatchDone => LoopMovesKeep(s, step);
    case LoopReturns => LoopMovesKeep(s, step);
  }

  /** Safety over every run of the runner. */
  lemma {:induction false} RunKeepsInv(s: Sys, steps: seq<Step>, t: Sys)
    requires Inv(s) && Run(s, steps, t)
    ensures Inv(t) && t.cfg == s.cfg && (s.cancelled ==> t.cancelled)
    decreases |steps|
  {
    if steps != [] {
      StepKeepsInv(s, steps[0]);
      RunKeepsInv(Apply(s, steps[0]), steps[1..], t);
    }
  }

  /** What a reader of the runner may rely on. */
  ghost predicate Safe(t: Sys) {
    && (forall r :: r in t.owed ==> r in t.inbox || r in t.loop.queue || r in t.loop.after)
    && (t.inbox != {} && !t.pc.Returned? ==> t.wake || t.posting > 0 || t.pc.Woken?)
    && (forall i, j :: 0 <= i < j < |t.pool| && t.pool[i].Occupied() && t.pool[j].Occupied() ==>
          t.pool[i].req != t.pool[j].req)
    && (forall r :: multiset(t.log)[r] <= t.triggers[r])
    && t.loop.busy == |t.loop.inFlight| <= t.cfg.workers
    && (forall kind :: CountIf(ResyncOf(kind), t.loop.events) ==
          if kind in t.cfg.regs && t.cfg.regs[kind].lister && t.cfg.regs[kind].resync > 0 then 1 else 0)
    && (forall r :: r in t.loop.fails ==>
          r in t.loop.queue || r in t.loop.inFlight || CountIf(RetryOf(r), t.loop.events) > 0)
  }

  lemma InvIsSafe(t: Sys)
    requires Inv(t)
    ensures Safe(t)
  {}

  /** It holds in every reachable state: no notification is lost, a
      waiting inbox always has a wake-up on the way, no key is with two workers, no key runs more
      often than it was asked to, and timed work is never dropped. */
  lemma RunnerSafety(s: Sys, steps: seq<Step>, t: Sys)
    requires Init(s) && Run(s, steps, t)
    ensures Safe(t)
  {
    InitInv(s);
    RunKeepsInv(s, steps, t);
    InvIsSafe(t);
  }

  // ----- Order of service

  /** The keys taken so far, followed by the queue, only grow at the end. */
  predicate Extends(s: Sys, t: Sys) {
    s.log <= t.log && s.log + s.loop.queue <= t.log + t.loop.queue
  }

  lemma QueueExtends(s: Sys, t: Sys)
    requires t.log == s.log && s.loop.queue <= t.loop.queue
    ensures Extends(s, t)
  {}

  lemma PopExtends(s: Sys, step: Step)
    requires Enabled(s, step) && step.Pop?
    ensures Extends(s, Apply(s, step))
  {
    PopMoves(s.log, s.loop.queue);
  }

  lemma StepQueue(s: Sys, step: Step)
    requires Enabled(s, step) && !step.Pop?
    ensures Apply(s, step).log == s.log && s.loop.queue <= Apply(s, step).loop.queue
  {
    match step
    case Drain(order) => EnqueueAllKeeps(s.loop, order);
    case FireOne(i, listing) =>
      var e := s.loop.events[i];
      EnqueueAllKeeps(s.loop.(events := Without(s.loop.events, i) + Rescheduled(s.cfg, e, s.pc.firedAt)),
                      Fired(s.cfg, e, listing));
    case Report(w, now) => CompleteQueue(s.cfg, s.loop, s.pool[w].req, s.pool[w].outcome, now);
    case _ =>
  }

  lemma StepExtendsOrder(s: Sys, step: Step)
    requires Enabled(s, step)
    ensures Extends(s, Apply(s, step))
  {
    if step.Pop? {
      PopExtends(s, step);
    } else {
      StepQueue(s, step);
      QueueExtends(s, Apply(s, step));
    }
  }

  lemma PopMoves(log: seq<Request>, queue: seq<Request>)
    requires queue != []
    ensures log + queue == log + [queue[0]] + queue[1..]
  {}

  lemma {:induction false} RunExtendsOrder(s: Sys, steps: seq<Step>, t: Sys)
    requires Run(s, steps, t)
    ensures Extends(s, t)
    decreases |steps|
  {
    if steps != [] {
      StepExtendsOrder(s, steps[0]);
      RunExtendsOrder(Apply(s, steps[0]), steps[1..], t);
    }
  }

  /** First in, first out: whatever arrives, the key at position `k` is the one taken after exactly
      `k` others. */
  lemma ServedInOrder(s: Sys, steps: seq<Step>, t: Sys, k: nat)
    requires Run(s, steps, t) && k < |s.loop.queue|
    ensures |t.log| > |s.log| + k ==> t.log[|s.log| + k] == s.loop.queue[k]
    ensures |t.log| <= |s.log| + k ==>
              var j := |s.log| + k - |t.log|;
              j < |t.loop.queue| && t.loop.queue[j] == s.loop.queue[k]
  {
    RunExtendsOrder(s, steps, t);
    assert (s.log + s.loop.queue)[|s.log| + k] == (t.log + t.loop.queue)[|s.log| + k];
  }

  lemma OwedUntilPop(s: Sys, step: Step, r: Request)
    requires Enabled(s, step) && r in s.owed && r !in Apply(s, step).owed
    ensures Apply(s, step).log == s.log + [r]
  {}

  /** A key stops being owed a round only by being taken from the queue. */
  lemma {:induction false} OwedUntilTaken(s: Sys, steps: seq<Step>, t: Sys, r: Request)
    requires Run(s, steps, t) && r in s.owed
    ensures |s.log| <= |t.log| && (r in t.owed || r in t.log[|s.log|..])
    decreases |steps|
  {
    RunExtendsOrder(s, steps, t);
    if steps != [] {
      var u := Apply(s, steps[0]);
      StepExtendsOrder(s, steps[0]);
      RunExtendsOrder(u, steps[1..], t);
      if r in u.owed {
        OwedUntilTaken(u, steps[1..], t, r);
        assert t.log[|s.log|..] == t.log[|s.log|..|u.log|] + t.log[|u.log|..];
      } else {
        OwedUntilPop(s, steps[0], r);
        assert t.log[|s.log|] == u.log[|s.log|] == r;
      }
    }
  }

  // ----- Overtaking

  /** By `t`, key `r` is among the first keys taken since `s`, as many as the queue of `s` holds, once that
      many have been taken. */
  predicate TakenSoon(s: Sys, t: Sys, r: Request) {
    var n := |s.log| + |s.loop.queue|;
    n <= |t.log| ==> r in t.log[|s.log|..n]
  }

  /** Whatever input arrives meanwhile, no more keys than the queue holds now are taken before a queued key. */
  lemma OvertakenAtMost(s: Sys, steps: seq<Step>, t: Sys, r: Request)
    requires Run(s, steps, t) && r in s.loop.queue
    ensures TakenSoon(s, t, r)
  {
    if |s.log| + |s.loop.queue| <= |t.log| {
      var k :| 0 <= k < |s.loop.queue| && s.loop.queue[k] == r;
      ServedInOrder(s, steps, t, k);
      assert t.log[|s.log|..|s.log| + |s.loop.queue|][k] == r;
    }
  }

  /** A drained key is queued, or due for a rerun because its round is under way. */
  lemma DrainedIsWaiting(s: Sys, step: Step, r: Request)
    requires Inv(s) && Enabled(s, step) && step.Drain? && r in s.inbox
    ensures var u := Apply(s, step);
            if r in s.loop.inFlight then r in u.loop.after else r in u.loop.queue
  {
    EnqueueAllKeeps(s.loop, step.order);
    EnqueueAllConsistent(s.loop, step.order, s.cfg.workers);
    var u := Apply(s, step);
    assert r in Elements(step.order) && r in u.loop.Waiting();
  }

  /** A rerun waits for nothing but the end of the round under way, and is then queued at once. */
  lemma RerunUntilReport(s: Sys, step: Step, r: Request)
    requires Inv(s) && Enabled(s, step) && r in s.loop.after && r !in Apply(s, step).loop.after
    ensures step.Report? && s.pool[step.w].req == r && r in Apply(s, step).loop.queue
  {
    match step
    case Drain(order) => EnqueueAllKeeps(s.loop, order);
    case FireOne(i, listing) =>
      var e := s.loop.events[i];
      EnqueueAllKeeps(s.loop.(events := Without(s.loop.events, i) + Rescheduled(s.cfg, e, s.pc.firedAt)),
                      Fired(s.cfg, e, listing));
    case Report(w, now) =>
      CompleteConsistent(s.cfg, s.loop, s.pool[w].req, s.pool[w].outcome, now);
      CompleteQueue(s.cfg, s.loop, s.pool[w].req, s.pool[w].outcome, now);
    case _ =>
  }

  lemma RunCons(s: Sys, steps: seq<Step>, j: nat, u: Sys)
    requires 0 < j <= |steps| && Enabled(s, steps[0]) && Run(Apply(s, steps[0]), steps[1..][..j-1], u)
    ensures Run(s, steps[..j], u)
  {
    assert steps[..j][1..] == steps[1..][..j-1];
  }

  lemma {:induction false} RerunIsQueued(s: Sys, steps: seq<Step>, t: Sys, r: Request) returns (j: nat, u: Sys)
    requires Inv(s) && Run(s, steps, t) && r in s.loop.after && r !in t.loop.after
    ensures 0 < j <= |steps| && steps[j-1].Report? && r in u.loop.queue
    ensures Run(s, steps[..j], u) && Run(u, steps[j..], t)
    decreases |steps|
  {
    var next := Apply(s, steps[0]);
    if r in next.loop.after {
      StepKeepsInv(s, steps[0]);
      var i;
      i, u := RerunIsQueued(next, steps[1..], t, r);
      j := i + 1;
      assert steps[j..] == steps[1..][i..];
      RunCons(s, steps, j, u);
    } else {
      RerunUntilReport(s, steps[0], r);
      j, u := 1, next;
      RunCons(s, steps, 1, u);
    }
  }

  /** Step `j` of the run reports a round, which leaves `r` queued in `u`, to be taken soon. */
  predicate Reported(s: Sys, steps: seq<Step>, t: Sys, r: Request, j: nat, u: Sys)
    requires 0 < j <= |steps|
  {
    && steps[j-1].Report? && Run(s, steps[..j], u) && Run(u, steps[j..], t)
    && r in u.loop.queue && TakenSoon(u, t, r)
  }

  lemma RerunTakenSoon(s: Sys, steps: seq<Step>, t: Sys, r: Request) returns (j: nat, u: Sys)
    requires Inv(s) && Run(s, steps, t) && r in s.loop.after && r !in t.loop.after
    ensures 0 < j <= |steps| && Reported(s, steps, t, r, j, u)
  {
    j, u := RerunIsQueued(s, steps, t, r);
    OvertakenAtMost(u, steps[j..], t, r);
  }

  /** Bounded overtaking, over runs with any input: once the loop drains a notified key, no more keys than
      then wait in the queue are taken up to and including it. If a round of the key is under way, it stays
      due for a rerun until that round is reported, and from then on the same holds. */
  lemma BoundedOvertaking(s: Sys, drain: Step, steps: seq<Step>, t: Sys, r: Request)
    requires Inv(s) && Enabled(s, drain) && drain.Drain? && r in s.inbox && Run(Apply(s, drain), steps, t)
    ensures r !in s.loop.inFlight ==> TakenSoon(Apply(s, drain), t, r)
    ensures r in s.loop.inFlight ==>
              || r in t.loop.after
              || exists j, u :: 0 < j <= |steps| && Reported(Apply(s, drain), steps, t, r, j, u)
  {
    DrainedIsWaiting(s, drain, r);
    if r !in s.loop.inFlight {
      OvertakenAtMost(Apply(s, drain), steps, t, r);
    } else if r !in t.loop.after {
      StepKeepsInv(s, drain);
      var j, u := RerunTakenSoon(Apply(s, drain), steps, t, r);
    }
  }

  // ----- Backing off

  /** What the rounds of `r` that completed during a run came to, oldest first. */
  function Reports(s: Sys, steps: seq<Step>, t: Sys, r: Request): seq<Outcome>
    requires Run(s, steps, t)
    decreases |steps|
  {
    if steps == [] then []
    else
      (if steps[0].Report? && s.pool[steps[0].w].req == r then [s.pool[steps[0].w].outcome] else [])
      + Reports(Apply(s, steps[0]), steps[1..], t, r)
  }

  /** Failures at the end of a history, since the last success. */
  function Streak(outcomes: seq<Outcome>): nat {
    if outcomes == [] || !outcomes[|outcomes|-1].Failed? then 0 else 1 + Streak(outcomes[..|outcomes|-1])
  }

  /** The streak of a history before which `n` rounds in a row had failed already. */
  function StreakAfter(n: nat, outcomes: seq<Outcome>): nat {
    Streak(outcomes) + if Streak(outcomes) == |outcomes| then n else 0
  }

  lemma {:induction false} StreakCons(o: Outcome, rest: seq<Outcome>)
    ensures Streak(rest) <= |rest|
    ensures Streak([o] + rest) == StreakAfter(if o.Failed? then 1 else 0, rest)
  {
    if rest == [] {
      assert ([o] + rest)[..0] == [];
    } else {
      var front := rest[..|rest|-1];
      StreakCons(o, front);
      assert ([o] + rest)[..|rest|] == [o] + front;
    }
  }

  lemma StreakAfterCons(n: nat, o: Outcome, rest: seq<Outcome>)
    ensures StreakAfter(n, [o] + rest) == StreakAfter(if o.Failed? then n + 1 else 0, rest)
  {
    StreakCons(o, rest);
  }

  lemma StepCountsFailures(s: Sys, step: Step, r: Request)
    requires Enabled(s, step)
    ensures FailCount(Apply(s, step).loop, r) ==
      if step.Report? && s.pool[step.w].req == r then
        if s.pool[step.w].outcome.Failed? then FailCount(s.loop, r) + 1 else 0
      else FailCount(s.loop, r)
  {
    match step
    case Drain(order) => EnqueueAllKeeps(s.loop, order);
    case FireOne(i, listing) =>
      var e := s.loop.events[i];
      EnqueueAllKeeps(s.loop.(events := Without(s.loop.events, i) + Rescheduled(s.cfg, e, s.pc.firedAt)),
                      Fired(s.cfg, e, listing));
    case _ =>
  }

  /** The failure count of a key is the number of its rounds that failed in a row, whatever else ran. */
  lemma {:induction false} FailsCountTheStreak(s: Sys, steps: seq<Step>, t: Sys, r: Request)
    requires Run(s, steps, t)
    ensures FailCount(t.loop, r) == StreakAfter(FailCount(s.loop, r), Reports(s, steps, t, r))
    decreases |steps|
  {
    if steps != [] {
      var u := Apply(s, steps[0]);
      StepCountsFailures(s, steps[0], r);
      FailsCountTheStreak(u, steps[1..], t, r);
      var rest := Reports(u, steps[1..], t, r);
      if steps[0].Report? && s.pool[steps[0].w].req == r {
        StreakAfterCons(FailCount(s.loop, r), s.pool[steps[0].w].outcome, rest);
      } else {
        assert Reports(s, steps, t, r) == rest;
      }
    }
  }

  /** The k-th failure in a row waits the k-th backoff step, and the last step from there on. */
  lemma BackoffFollowsStreak(s: Sys, steps: seq<Step>, t: Sys, w: nat, now: int)
    requires Init(s) && Run(s, steps, t) && Enabled(t, Report(w, now)) && t.pool[w].outcome.Failed?
    ensures var r := t.pool[w].req;
            var k := Streak(Reports(s, steps, t, r));
            var backoff := t.cfg.backoff;
            Apply(t, Report(w, now)).loop.events
              == t.loop.events + [Retry(now + backoff[if k < |backoff| then k else |backoff| - 1], r)]
  {
    var r := t.pool[w].req;
    FailsCountTheStreak(s, steps, t, r);
    assert FailCount(s.loop, r) == 0;
    ReportSchedules(t, w, now);
  }

  lemma ReportSchedules(t: Sys, w: nat, now: int)
    requires Enabled(t, Report(w, now)) && t.pool[w].outcome.Failed?
    ensures var r := t.pool[w].req;
            Apply(t, Report(w, now)).loop.events
              == t.loop.events + [Retry(now + BackoffStep(t.cfg, FailCount(t.loop, r) + 1), r)]
  {}

  // ----- Progress

  /** Steps the runner takes by itself; the others are input: a notification, the clock, shutdown. */
  predicate Internal(step: Step) {
    !step.NotifyInsert? && !step.TimerFires? && !step.Cancel?
  }

  predicate Quiescent(s: Sys) {
    && s.pc.Select? && !s.wake && s.posting == 0
    && forall i :: 0 <= i < |s.pool| ==> s.pool[i].Idle?
  }

  /** Nothing is left to do: quiet, or after cancellation everything has stopped. */
  predicate Settled(s: Sys) {
    if s.cancelled then
      s.pc.Returned? && s.posting == 0 && forall i :: 0 <= i < |s.pool| ==> s.pool[i].Exited?
    else Quiescent(s)
  }

  /** The blocking hand-off always has a worker to receive it. */
  lemma HandoffNeverBlocks(s: Sys) returns (w: nat)
    requires Inv(s) && !s.cancelled && s.pc.Handing?
    ensures Enabled(s, Hand(w))
  {
    OccupiedBound(s.pool);
    w :| w < |s.pool| && !s.pool[w].Occupied();
  }

  /** A quiet runner owes nothing: every notified key has been taken, and its round is over. */
  lemma QuietMeansDone(s: Sys)
    requires Inv(s) && !s.cancelled && Quiescent(s)
    ensures s.owed == {} && s.inbox == {} && s.loop.Waiting() == {} && s.loop.inFlight == {}
  {
    NobodyOccupied(s.pool);
    assert s.loop.queue == [];
  }

  lemma {:induction false} ListAll(s: set<Request>) returns (order: seq<Request>)
    ensures Distinct(order) && Elements(order) == s && |order| == |s|
  {
    order := [];
    if s != {} {
      var r :| r in s;
      var rest := ListAll(s - {r});
      assert r !in Elements(rest);
      order := rest + [r];
      assert Elements(order) == Elements(rest) + {r};
    }
  }

  /** The loop goroutine is never stuck on its own state. */
  lemma LoopCanMove(s: Sys) returns (step: Step)
    requires Inv(s) && (s.pc.Woken? || s.pc.Firing? || s.pc.Dispatching? || (s.pc.Handing? && !s.cancelled))
    ensures Internal(step) && Enabled(s, step)
  {
    match s.pc
    case Woken =>
      var order := ListAll(s.inbox);
      step := Drain(order);
    case Firing(at) =>
      if SomeDue(s, at) {
        var k :| 0 <= k < |s.loop.events| && s.loop.events[k].at <= at;
        step := FireOne(Front(s.loop.events), ListFailed);
      } else {
        step := FireDone;
      }
    case Dispatching =>
      step := if CanDispatch(s) then Pop else DispatchDone;
    case Handing(_) =>
      var w := HandoffNeverBlocks(s);
      step := Hand(w);
  }

  /** No deadlock: until everything is settled, some step other than input is possible. */
  lemma NeverStuck(s: Sys) returns (step: Step)
    requires Inv(s) && !Settled(s)
    ensures Internal(step) && Enabled(s, step)
  {
    if s.posting > 0 {
      step := NotifyPost;
    } else if s.pc.Woken? || s.pc.Firing? || s.pc.Dispatching? || (s.pc.Handing? && !s.cancelled) {
      step := LoopCanMove(s);
    } else if s.cancelled && !s.pc.Returned? {
      step := LoopReturns;
    } else if s.pc.Select? && s.wake {
      step := TakeWake;
    } else if exists i :: 0 <= i < |s.pool| && s.pool[i].Running? {
      var w :| 0 <= w < |s.pool| && s.pool[w].Running?;
      step := RunEnds(w, Failed);
    } else if s.cancelled {
      var w :| 0 <= w < |s.pool| && !s.pool[w].Exited?;
      step := WorkerExits(w);
    } else {
      var w :| 0 <= w < |s.pool| && !s.pool[w].Idle?;
      assert s.pool[w].Reporting? && s.pool[w].req in s.loop.inFlight;
      CompleteConsistent(s.cfg, s.loop, s.pool[w].req, s.pool[w].outcome, 0);
      step := Report(w, 0);
    }
  }

  function PcWeight(pc: Pc): nat {
    match pc
    case Returned => 0
    case Select => 1
    case Dispatching => 2
    case Woken => 3
    case Firing(_) => 3
    case Handing(_) => 6
  }

  function WorkerWeight(w: Worker): nat {
    match w
    case Exited => 0
    case Idle => 1
    case Reporting(_, _) => 3
    case Running(_) => 4
  }

  function PoolWeight(pool: seq<Worker>): nat {
    if pool == [] then 0 else WorkerWeight(pool[0]) + PoolWeight(pool[1..])
  }

  lemma {:induction false} PoolWeightUpdate(pool: seq<Worker>, w: nat, x: Worker)
    requires w < |pool|
    ensures PoolWeight(pool[w := x]) == PoolWeight(pool) + WorkerWeight(x) - WorkerWeight(pool[w])
  {
    if w > 0 {
      PoolWeightUpdate(pool[1..], w - 1, x);
      assert pool[w := x][1..] == pool[1..][w - 1 := x];
    } else {
      assert pool[w := x][1..] == pool[1..];
    }
  }

  /** Work left: first the due events still to pop, then a weight for everything under way. */
  function DueLeft(s: Sys): nat {
    if s.pc.Firing? then CountIf(DueBy(s.pc.firedAt), s.loop.events) else 0
  }

  function Weight(s: Sys): nat {
    4 * s.posting + (if s.wake then 3 else 0) + 5 * |s.inbox| + 5 * (|s.loop.queue| + |s.loop.after|)
    + PcWeight(s.pc) + PoolWeight(s.pool)
  }

  lemma {:induction false} DistinctSize(order: seq<Request>)
    requires Distinct(order)
    ensures |Elements(order)| == |order|
  {
    if order != [] {
      var init, last := order[..|order|-1], order[|order|-1];
      DistinctSize(init);
      assert Elements(order) == Elements(init) + {last} && last !in Elements(init);
    } else {
      assert Elements(order) == {};
    }
  }

  predicate LessLeft(t: Sys, s: Sys) {
    DueLeft(t) < DueLeft(s) || (DueLeft(t) == DueLeft(s) && Weight(t) < Weight(s))
  }

  lemma LoopStepLeavesLess(s: Sys, step: Step)
    requires Enabled(s, step) && Internal(step)
    requires step.TakeWake? || step.Drain? || step.FireOne? || step.FireDone? || step.Pop?
          || step.DispatchDone? || step.LoopReturns? || step.NotifyPost?
    ensures LessLeft(Apply(s, step), s)
  {
    match step
    case Drain(order) =>
      EnqueueAllKeeps(s.loop, order);
      DistinctSize(order);
    case FireOne(i, listing) => FiringLeavesFewerDue(s.cfg, s.loop, i, s.pc.firedAt, listing);
    case FireDone => CountPositive(DueBy(s.pc.firedAt), s.loop.events);
    case _ =>
  }

  lemma WorkerStepLeavesLess(s: Sys, step: Step)
    requires Enabled(s, step) && (step.Hand? || step.RunEnds? || step.Report? || step.WorkerExits?)
    requires step.Report? ==> s.pool[step.w].req !in s.loop.pending
    ensures LessLeft(Apply(s, step), s)
  {
    PoolWeightUpdate(s.pool, step.w, Apply(s, step).pool[step.w]);
    if step.Report? {
      CompleteQueue(s.cfg, s.loop, s.pool[step.w].req, s.pool[step.w].outcome, step.now);
    }
  }

  /** Every step the runner takes by itself leaves less to do, so it cannot keep itself busy. */
  lemma StepLeavesLess(s: Sys, step: Step)
    requires Inv(s) && Enabled(s, step) && Internal(step)
    ensures LessLeft(Apply(s, step), s)
  {
    if step.Hand? || step.RunEnds? || step.Report? || step.WorkerExits? {
      WorkerStepLeavesLess(s, step);
    } else {
      LoopStepLeavesLess(s, step);
    }
  }

  predicate Follows(states: nat -> Sys, moves: nat -> Step, n: nat) {
    Internal(moves(n)) && Enabled(states(n), moves(n)) && states(n + 1) == Apply(states(n), moves(n))
  }

  /** Convergence: however the runner's own steps are scheduled, without input they run out. */
  lemma {:induction false} EveryRunStops(states: nat -> Sys, moves: nat -> Step, n: nat) returns (k: nat)
    requires Inv(states(n))
    ensures k >= n && !Follows(states, moves, k)
    decreases DueLeft(states(n)), Weight(states(n))
  {
    k := n;
    if Follows(states, moves, n) {
      StepLeavesLess(states(n), moves(n));
      StepKeepsInv(states(n), moves(n));
      k := EveryRunStops(states, moves, n + 1);
    }
  }

  predicate AllInternal(steps: seq<Step>) {
    forall i :: 0 <= i < |steps| ==> Internal(steps[i])
  }

  lemma {:induction false} OnlyInputCancels(s: Sys, steps: seq<Step>, t: Sys)
    requires Run(s, steps, t) && AllInternal(steps)
    ensures t.cancelled == s.cancelled
    decreases |steps|
  {
    if steps != [] { OnlyInputCancels(Apply(s, steps[0]), steps[1..], t); }
  }

  ghost predicate Stopped(s: Sys) {
    forall step :: Internal(step) ==> !Enabled(s, step)
  }

  /** When they have run out, the runner is quiet, or shut down with no goroutine left behind. */
  lemma StoppedIsSettled(s: Sys)
    requires Inv(s) && Stopped(s)
    ensures Settled(s)
  {
    if !Settled(s) { var step := NeverStuck(s); }
  }

  /** A notified key is always served: in whatever order the runner takes its steps, when none is left
      a round for the key has been handed out after the notification and has finished. */
  lemma EveryNotificationServed(s: Sys, steps: seq<Step>, t: Sys, r: Request)
    requires Inv(s) && !s.cancelled && r in s.owed
    requires Run(s, steps, t) && AllInternal(steps) && Stopped(t)
    ensures Quiescent(t) && t.loop.inFlight == {}
    ensures |s.log| <= |t.log| && r in t.log[|s.log|..]
  {
    RunKeepsInv(s, steps, t);
    OnlyInputCancels(s, steps, t);
    StoppedIsSettled(t);
    QuietMeansDone(t);
    OwedUntilTaken(s, steps, t, r);
  }
}
