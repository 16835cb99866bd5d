/** Liveness of the reconcile runner under input that never stops: every notified key is taken. */
module ReconcileLiveness {
  import opened Reconcile
  import opened ReconcileSystem

  // ----- Infinite runs

  predicate StepAt(states: nat -> Sys, moves: nat -> Step, n: nat) {
    !states(n).cancelled && Enabled(states(n), moves(n)) && states(n + 1) == Apply(states(n), moves(n))
  }

  /** An infinite run that is never cancelled, with whatever input. */
  ghost predicate Behaves(states: nat -> Sys, moves: nat -> Step) {
    Inv(states(0)) && forall n: nat :: StepAt(states, moves, n)
  }

  lemma {:induction false} AlwaysInv(states: nat -> Sys, moves: nat -> Step, n: nat)
    requires Behaves(states, moves)
    ensures Inv(states(n))
  {
    if n > 0 {
      AlwaysInv(states, moves, n - 1);
      assert StepAt(states, moves, n - 1);
      StepKeepsInv(states(n - 1), moves(n - 1));
    }
  }

  // ----- Fairness

  /** A step of the loop goroutine. */
  predicate LoopStep(step: Step) {
    !step.NotifyInsert? && !step.NotifyPost? && !step.RunEnds? && !step.Cancel? && !step.WorkerExits?
  }

  predicate LoopMoves(moves: nat -> Step, n: nat, m: nat) { n <= m && LoopStep(moves(m)) }

  predicate RoundEnds(moves: nat -> Step, n: nat, w: nat, m: nat) { n <= m && moves(m).RunEnds? && moves(m).w == w }

  predicate RoundReported(moves: nat -> Step, n: nat, w: nat, m: nat) { n <= m && moves(m).Report? && moves(m).w == w }

  predicate TokenTaken(moves: nat -> Step, n: nat, m: nat) { n <= m && moves(m).TakeWake? }

  predicate TokenPosted(moves: nat -> Step, n: nat, m: nat) { n <= m && moves(m).NotifyPost? }

  predicate Working(s: Sys, w: nat) { w < |s.pool| && s.pool[w].Running? }

  predicate Waiting(s: Sys, w: nat) { w < |s.pool| && s.pool[w].Reporting? }

  predicate AwayFromSelect(s: Sys) { !s.pc.Select? }

  predicate TokenThere(s: Sys) { s.wake }

  predicate TokenOnItsWay(s: Sys) { s.posting > 0 }

  /** The goroutines are scheduled, reconcilers return, and the loop's select favours none of its ready arms
      forever: neither a report nor the wake token waits for good. */
  ghost predicate Fair(states: nat -> Sys, moves: nat -> Step) {
    && (forall n: nat {:trigger AwayFromSelect(states(n))} ::
          AwayFromSelect(states(n)) ==> exists m: nat :: LoopMoves(moves, n, m))
    && (forall n: nat, w: nat {:trigger Working(states(n), w)} ::
          Working(states(n), w) ==> exists m: nat :: RoundEnds(moves, n, w, m))
    && (forall n: nat, w: nat {:trigger Waiting(states(n), w)} ::
          Waiting(states(n), w) ==> exists m: nat :: RoundReported(moves, n, w, m))
    && (forall n: nat {:trigger TokenThere(states(n))} ::
          TokenThere(states(n)) ==> exists m: nat :: TokenTaken(moves, n, m))
    && (forall n: nat {:trigger TokenOnItsWay(states(n))} ::
          TokenOnItsWay(states(n)) ==> exists m: nat :: TokenPosted(moves, n, m))
  }

  // ----- Waiting for the loop

  lemma OthersLeaveLoop(s: Sys, step: Step)
    requires Enabled(s, step) && !LoopStep(step)
    ensures Apply(s, step).loop == s.loop && Apply(s, step).pc == s.pc && Apply(s, step).cfg == s.cfg
    ensures s.inbox <= Apply(s, step).inbox
  {}

  lemma {:induction false} LoopStepBy(states: nat -> Sys, moves: nat -> Step, n: nat, k: nat) returns (m: nat)
    requires Behaves(states, moves) && n <= k && LoopStep(moves(k))
    ensures n <= m && LoopStep(moves(m)) && StepAt(states, moves, m)
    ensures states(m).loop == states(n).loop && states(m).pc == states(n).pc && states(m).cfg == states(n).cfg
    ensures states(n).inbox <= states(m).inbox
    decreases k - n
  {
    assert StepAt(states, moves, n);
    m := n;
    if !LoopStep(moves(n)) {
      OthersLeaveLoop(states(n), moves(n));
      m := LoopStepBy(states, moves, n + 1, k);
    }
  }

  /** The loop, anywhere but at its select, moves, and finds its state as it left it. */
  lemma NextLoopStep(states: nat -> Sys, moves: nat -> Step, n: nat) returns (m: nat)
    requires Behaves(states, moves) && Fair(states, moves) && !states(n).pc.Select?
    ensures n <= m && LoopStep(moves(m)) && StepAt(states, moves, m)
    ensures states(m).loop == states(n).loop && states(m).pc == states(n).pc && states(m).cfg == states(n).cfg
    ensures states(n).inbox <= states(m).inbox
  {
    assert AwayFromSelect(states(n));
    var k: nat :| LoopMoves(moves, n, k);
    m := LoopStepBy(states, moves, n, k);
  }

  // ----- A waiting queue is served

  predicate Idles(states: nat -> Sys, moves: nat -> Step, m: nat) {
    !moves(m).Pop? && states(m).loop.queue != []
  }

  /** From `n` on keys wait and none is taken. */
  ghost predicate Stuck(states: nat -> Sys, moves: nat -> Step, n: nat) {
    forall m: nat :: n <= m ==> Idles(states, moves, m)
  }

  lemma DispatchPops(states: nat -> Sys, moves: nat -> Step, m: nat)
    requires StepAt(states, moves, m) && LoopStep(moves(m)) && states(m).pc.Dispatching? && CanDispatch(states(m))
    ensures !Idles(states, moves, m)
  {}

  lemma NeverCouldDispatch(states: nat -> Sys, moves: nat -> Step, n: nat, m: nat)
    requires Behaves(states, moves) && Fair(states, moves) && Stuck(states, moves, n) && n <= m
    ensures !(states(m).pc.Dispatching? && CanDispatch(states(m)))
  {
    if states(m).pc.Dispatching? && CanDispatch(states(m)) {
      var k := NextLoopStep(states, moves, m);
      DispatchPops(states, moves, k);
    }
  }

  lemma ReportFreesWorker(s: Sys, step: Step)
    requires Inv(s) && Enabled(s, step) && step.Report?
    ensures var t := Apply(s, step);
            t.pc.Dispatching? && t.loop.busy < t.cfg.workers
  {
    CompleteQueue(s.cfg, s.loop, s.pool[step.w].req, s.pool[step.w].outcome, step.now);
  }

  lemma NeverReports(states: nat -> Sys, moves: nat -> Step, n: nat, m: nat)
    requires Behaves(states, moves) && Fair(states, moves) && Stuck(states, moves, n) && n <= m
    ensures !moves(m).Report?
  {
    if moves(m).Report? {
      AlwaysInv(states, moves, m);
      assert StepAt(states, moves, m);
      ReportFreesWorker(states(m), moves(m));
      assert Idles(states, moves, m + 1);
      NeverCouldDispatch(states, moves, n, m + 1);
    }
  }

  lemma NobodyWorks(states: nat -> Sys, moves: nat -> Step, n: nat, m: nat, w: nat)
    requires Behaves(states, moves) && Fair(states, moves) && Stuck(states, moves, n) && n <= m
    ensures !Working(states(m), w) && !Waiting(states(m), w)
  {
    if Waiting(states(m), w) {
      var k: nat :| RoundReported(moves, m, w, k);
      NeverReports(states, moves, n, k);
    }
    if Working(states(m), w) {
      var k: nat :| RoundEnds(moves, m, w, k);
      assert StepAt(states, moves, k);
      assert Waiting(states(k + 1), w);
      var j: nat :| RoundReported(moves, k + 1, w, j);
      NeverReports(states, moves, n, j);
    }
  }

  lemma NothingHanded(states: nat -> Sys, moves: nat -> Step, n: nat, m: nat)
    requires Behaves(states, moves) && Fair(states, moves) && Stuck(states, moves, n) && n <= m
    ensures !states(m).pc.Handing?
  {
    if states(m).pc.Handing? {
      var k := NextLoopStep(states, moves, m);
      assert moves(k).Hand?;
      assert Working(states(k + 1), moves(k).w);
      NobodyWorks(states, moves, n, k + 1, moves(k).w);
    }
  }

  /** With nobody working and keys waiting, the loop can only be firing events. */
  lemma OnlyFiring(states: nat -> Sys, moves: nat -> Step, n: nat, m: nat)
    requires Behaves(states, moves) && Fair(states, moves) && Stuck(states, moves, n) && n <= m
    ensures states(m).pc.Firing?
  {
    AlwaysInv(states, moves, m);
    assert StepAt(states, moves, m) && Idles(states, moves, m);
    var s := states(m);
    forall w | 0 <= w < |s.pool| ensures !s.pool[w].Occupied() { NobodyWorks(states, moves, n, m, w); }
    NobodyOccupied(s.pool);
    NothingHanded(states, moves, n, m);
    assert CanDispatch(s);
    NeverCouldDispatch(states, moves, n, m);
  }

  lemma FiringLeavesLess(s: Sys, step: Step)
    requires Enabled(s, step) && LoopStep(step) && s.pc.Firing?
    ensures step.FireOne? || step.FireDone? || step.LoopReturns?
    ensures step.FireOne? ==> DueLeft(Apply(s, step)) < DueLeft(s)
    ensures step.FireDone? ==> Apply(s, step).pc.Dispatching?
  {
    if step.FireOne? { FiringLeavesFewerDue(s.cfg, s.loop, step.i, s.pc.firedAt, step.listing); }
  }

  /** But events run out. */
  lemma {:induction false} NeverStuckForever(states: nat -> Sys, moves: nat -> Step, n: nat, m: nat)
    requires Behaves(states, moves) && Fair(states, moves) && Stuck(states, moves, n) && n <= m
    ensures false
    decreases DueLeft(states(m))
  {
    OnlyFiring(states, moves, n, m);
    var k := NextLoopStep(states, moves, m);
    FiringLeavesLess(states(k), moves(k));
    OnlyFiring(states, moves, n, k + 1);
    NeverStuckForever(states, moves, n, k + 1);
  }

  // ----- Nothing waits for ever

  /** Key `r` is taken at step `m`. */
  predicate Takes(states: nat -> Sys, moves: nat -> Step, r: Request, m: nat) {
    moves(m).Pop? && states(m).loop.queue != [] && states(m).loop.queue[0] == r
  }

  /** Key `r` is never taken from `n` on. */
  ghost predicate Forgotten(states: nat -> Sys, moves: nat -> Step, r: Request, n: nat) {
    forall m: nat :: n <= m ==> !Takes(states, moves, r, m)
  }

  /** A queued key that is not taken stays, and every key that is taken brings it forward. */
  lemma {:induction false} Position(states: nat -> Sys, moves: nat -> Step, r: Request, n: nat, k: nat, m: nat) returns (j: nat)
    requires Behaves(states, moves) && Forgotten(states, moves, r, n) && n <= m
    requires k < |states(n).loop.queue| && states(n).loop.queue[k] == r
    ensures j <= k && j < |states(m).loop.queue| && states(m).loop.queue[j] == r
    decreases m - n
  {
    j := k;
    if n < m {
      assert StepAt(states, moves, n) && !Takes(states, moves, r, n);
      var i := QueuedStep(states(n), moves(n), r, k);
      j := Position(states, moves, r, n + 1, i, m);
    }
  }

  lemma QueuedStep(s: Sys, step: Step, r: Request, k: nat) returns (j: nat)
    requires Enabled(s, step) && k < |s.loop.queue| && s.loop.queue[k] == r && !(step.Pop? && s.loop.queue[0] == r)
    ensures var queue := Apply(s, step).loop.queue;
            j <= k && j < |queue| && queue[j] == r && (step.Pop? ==> j < k)
  {
    j := k;
    if step.Pop? {
      j := k - 1;
    } else {
      StepQueue(s, step);
    }
  }

  predicate PopsAt(moves: nat -> Step, n: nat, m: nat) { n <= m && moves(m).Pop? }

  /** So if it is never taken, at some point no key is taken any more. */
  lemma {:induction false} PopsRunOut(states: nat -> Sys, moves: nat -> Step, r: Request, n: nat, k: nat) returns (m: nat)
    requires Behaves(states, moves) && Forgotten(states, moves, r, n)
    requires k < |states(n).loop.queue| && states(n).loop.queue[k] == r
    ensures n <= m && r in states(m).loop.queue && forall i: nat :: !PopsAt(moves, m, i)
    decreases k
  {
    m := n;
    if i: nat :| PopsAt(moves, n, i) {
      var j := Position(states, moves, r, n, k, i);
      assert StepAt(states, moves, i) && !Takes(states, moves, r, i);
      j := QueuedStep(states(i), moves(i), r, j);
      m := PopsRunOut(states, moves, r, i + 1, j);
    }
  }

  lemma ForgottenIsStuck(states: nat -> Sys, moves: nat -> Step, r: Request, n: nat) returns (m: nat)
    requires Behaves(states, moves) && Forgotten(states, moves, r, n) && r in states(n).loop.queue
    ensures n <= m && Stuck(states, moves, m)
  {
    var k :| 0 <= k < |states(n).loop.queue| && states(n).loop.queue[k] == r;
    m := PopsRunOut(states, moves, r, n, k);
    forall i: nat | m <= i ensures Idles(states, moves, i) {
      var j :| 0 <= j < |states(m).loop.queue| && states(m).loop.queue[j] == r;
      var l := Position(states, moves, r, m, j, i);
      assert !PopsAt(moves, m, i);
    }
  }

  /** A queued key is taken. */
  lemma QueuedIsTaken(states: nat -> Sys, moves: nat -> Step, r: Request, n: nat) returns (m: nat)
    requires Behaves(states, moves) && Fair(states, moves) && r in states(n).loop.queue
    ensures n <= m && Takes(states, moves, r, m)
  {
    if k: nat :| n <= k && Takes(states, moves, r, k) {
      m := k;
    } else {
      m := ForgottenIsStuck(states, moves, r, n);
      NeverStuckForever(states, moves, m, m);
    }
  }

  // ----- A key due for a rerun is queued

  /** Worker `w` has `r`, or the loop is handing it over. */
  predicate HeldBy(s: Sys, r: Request, w: nat) {
    w < |s.pool| && s.pool[w].Occupied() && s.pool[w].req == r
  }

  function Keys(pool: seq<Worker>): set<Request> {
    set w | 0 <= w < |pool| && pool[w].Occupied() :: pool[w].req
  }

  lemma {:induction false} KeysCount(pool: seq<Worker>)
    requires forall i, j :: 0 <= i < j < |pool| && pool[i].Occupied() && pool[j].Occupied() ==> pool[i].req != pool[j].req
    ensures |Keys(pool)| == Occupied(pool)
  {
    if pool != [] {
      var rest := pool[1..];
      KeysCount(rest);
      KeysTail(pool);
    } else {
      assert Keys(pool) == {};
    }
  }

  lemma KeysTail(pool: seq<Worker>)
    requires pool != []
    requires forall i, j :: 0 <= i < j < |pool| && pool[i].Occupied() && pool[j].Occupied() ==> pool[i].req != pool[j].req
    ensures Keys(pool) == Keys(pool[1..]) + (if pool[0].Occupied() then {pool[0].req} else {})
    ensures pool[0].Occupied() ==> pool[0].req !in Keys(pool[1..])
  {
    var rest := pool[1..];
    assert forall i :: 1 <= i < |pool| ==> pool[i] == rest[i-1];
    forall r | r in Keys(pool) ensures r in Keys(rest) || (pool[0].Occupied() && r == pool[0].req) {
      var i :| 0 <= i < |pool| && pool[i].Occupied() && pool[i].req == r;
      if i > 0 { assert rest[i-1].Occupied() && rest[i-1].req == r; }
    }
    forall r | r in Keys(rest) ensures r in Keys(pool) {
      var i :| 0 <= i < |rest| && rest[i].Occupied() && rest[i].req == r;
      assert pool[i+1].Occupied() && pool[i+1].req == r;
    }
  }

  lemma SameSize(a: set<Request>, b: set<Request>)
    requires a <= b && |a| == |b|
    ensures a == b
  {
    assert b == a + (b - a);
    assert |b| == |a| + |b - a|;
    assert b - a == {};
  }

  function Held(s: Sys): set<Request> {
    Keys(s.pool) + if s.pc.Handing? then {s.pc.req} else {}
  }

  lemma AllHeld(s: Sys)
    requires PoolOk(s) && Accounted(s) && !s.cancelled && s.loop.busy == |s.loop.inFlight|
    ensures Held(s) == s.loop.inFlight
  {
    KeysCount(s.pool);
    assert s.pc.Handing? ==> s.pc.req !in Keys(s.pool);
    SameSize(Held(s), s.loop.inFlight);
  }

  /** Every key in flight is with a worker, or being handed to one. */
  lemma InFlightIsHeld(s: Sys, r: Request) returns (w: nat)
    requires Inv(s) && !s.cancelled && r in s.loop.inFlight
    ensures HeldBy(s, r, w) || s.pc == Handing(r)
  {
    w := 0;
    AllHeld(s);
    if s.pc != Handing(r) {
      w :| 0 <= w < |s.pool| && s.pool[w].Occupied() && s.pool[w].req == r;
    }
  }

  lemma ReportQueuesRerun(s: Sys, step: Step, r: Request)
    requires Inv(s) && Enabled(s, step) && step.Report? && s.pool[step.w].req == r && r in s.loop.after
    ensures r in Apply(s, step).loop.queue
  {
    CompleteConsistent(s.cfg, s.loop, r, s.pool[step.w].outcome, step.now);
    CompleteQueue(s.cfg, s.loop, r, s.pool[step.w].outcome, step.now);
    var m := Apply(s, step).loop;
    assert r in m.Waiting() && r !in m.inFlight;
  }

  lemma OthersLeaveWorker(s: Sys, step: Step, w: nat)
    requires Enabled(s, step) && !s.cancelled && w < |s.pool| && s.pool[w].Occupied()
    requires !(step.RunEnds? && step.w == w) && !(step.Report? && step.w == w)
    ensures w < |Apply(s, step).pool| && Apply(s, step).pool[w] == s.pool[w]
  {}

  /** One step of a worker's wait: a key due for a rerun stays due and with its worker, or is queued. */
  lemma RerunStep(states: nat -> Sys, moves: nat -> Step, r: Request, n: nat, w: nat)
    requires Behaves(states, moves) && HeldBy(states(n), r, w) && r in states(n).loop.after
    requires !(moves(n).RunEnds? && moves(n).w == w) && !(moves(n).Report? && moves(n).w == w)
    ensures w < |states(n + 1).pool| && states(n + 1).pool[w] == states(n).pool[w]
    ensures r in states(n + 1).loop.after || r in states(n + 1).loop.queue
  {
    AlwaysInv(states, moves, n);
    assert StepAt(states, moves, n);
    OthersLeaveWorker(states(n), moves(n), w);
    if r !in states(n + 1).loop.after { RerunUntilReport(states(n), moves(n), r); }
  }

  lemma {:induction false} ReportingLeads(states: nat -> Sys, moves: nat -> Step, r: Request, n: nat, w: nat, k: nat) returns (m: nat)
    requires Behaves(states, moves) && RoundReported(moves, n, w, k)
    requires HeldBy(states(n), r, w) && states(n).pool[w].Reporting? && r in states(n).loop.after
    ensures n <= m && r in states(m).loop.queue
    decreases k - n
  {
    assert StepAt(states, moves, n);
    m := n + 1;
    if moves(n).Report? && moves(n).w == w {
      AlwaysInv(states, moves, n);
      ReportQueuesRerun(states(n), moves(n), r);
    } else {
      RerunStep(states, moves, r, n, w);
      if r !in states(n + 1).loop.queue { m := ReportingLeads(states, moves, r, n + 1, w, k); }
    }
  }

  lemma {:induction false} RunningLeads(states: nat -> Sys, moves: nat -> Step, r: Request, n: nat, w: nat, k: nat) returns (m: nat)
    requires Behaves(states, moves) && Fair(states, moves) && RoundEnds(moves, n, w, k)
    requires HeldBy(states(n), r, w) && states(n).pool[w].Running? && r in states(n).loop.after
    ensures n <= m && r in states(m).loop.queue
    decreases k - n
  {
    assert StepAt(states, moves, n);
    m := n + 1;
    if moves(n).RunEnds? && moves(n).w == w {
      assert Waiting(states(n + 1), w);
      var j: nat :| RoundReported(moves, n + 1, w, j);
      m := ReportingLeads(states, moves, r, n + 1, w, j);
    } else {
      RerunStep(states, moves, r, n, w);
      if r !in states(n + 1).loop.queue { m := RunningLeads(states, moves, r, n + 1, w, k); }
    }
  }

  lemma HeldLeads(states: nat -> Sys, moves: nat -> Step, r: Request, n: nat, w: nat) returns (m: nat)
    requires Behaves(states, moves) && Fair(states, moves) && HeldBy(states(n), r, w) && r in states(n).loop.after
    ensures n <= m && r in states(m).loop.queue
  {
    if states(n).pool[w].Reporting? {
      assert Waiting(states(n), w);
      var k: nat :| RoundReported(moves, n, w, k);
      m := ReportingLeads(states, moves, r, n, w, k);
    } else {
      assert Working(states(n), w);
      var k: nat :| RoundEnds(moves, n, w, k);
      m := RunningLeads(states, moves, r, n, w, k);
    }
  }

  lemma HandingLeads(states: nat -> Sys, moves: nat -> Step, r: Request, n: nat) returns (m: nat)
    requires Behaves(states, moves) && Fair(states, moves) && states(n).pc == Handing(r) && r in states(n).loop.after
    ensures n <= m && r in states(m).loop.queue
  {
    var k := NextLoopStep(states, moves, n);
    assert moves(k).Hand?;
    assert HeldBy(states(k + 1), r, moves(k).w);
    m := HeldLeads(states, moves, r, k + 1, moves(k).w);
  }

  /** A key due for a rerun is queued once its round is over, and that comes. */
  lemma RerunComes(states: nat -> Sys, moves: nat -> Step, r: Request, n: nat) returns (m: nat)
    requires Behaves(states, moves) && Fair(states, moves) && r in states(n).loop.after
    ensures n <= m && r in states(m).loop.queue
  {
    AlwaysInv(states, moves, n);
    assert StepAt(states, moves, n);
    var w := InFlightIsHeld(states(n), r);
    if states(n).pc == Handing(r) {
      m := HandingLeads(states, moves, r, n);
    } else {
      m := HeldLeads(states, moves, r, n, w);
    }
  }

  // ----- An inbox is drained

  predicate Drained(s: Sys, r: Request) {
    r in s.loop.queue || r in s.loop.after
  }

  lemma DrainMoves(states: nat -> Sys, moves: nat -> Step, r: Request, n: nat)
    requires Behaves(states, moves) && r in states(n).inbox
    ensures if moves(n).Drain? then Drained(states(n + 1), r) else r in states(n + 1).inbox
  {
    AlwaysInv(states, moves, n);
    assert StepAt(states, moves, n);
    if moves(n).Drain? { DrainedIsWaiting(states(n), moves(n), r); }
  }

  /** Up to step `k` a key stays in the inbox, or is drained. */
  lemma {:induction false} InboxUntil(states: nat -> Sys, moves: nat -> Step, r: Request, n: nat, k: nat) returns (m: nat)
    requires Behaves(states, moves) && r in states(n).inbox && n <= k
    ensures n <= m <= k && (Drained(states(m), r) || (m == k && r in states(k).inbox))
    decreases k - n
  {
    m := n;
    if n < k {
      DrainMoves(states, moves, r, n);
      if moves(n).Drain? { m := n + 1; } else { m := InboxUntil(states, moves, r, n + 1, k); }
    }
  }

  lemma WokenDrains(states: nat -> Sys, moves: nat -> Step, r: Request, n: nat) returns (m: nat)
    requires Behaves(states, moves) && Fair(states, moves) && r in states(n).inbox && states(n).pc.Woken?
    ensures n <= m && Drained(states(m), r)
  {
    var k := NextLoopStep(states, moves, n);
    assert moves(k).Drain?;
    DrainMoves(states, moves, r, k);
    m := k + 1;
  }

  lemma TokenDrains(states: nat -> Sys, moves: nat -> Step, r: Request, n: nat) returns (m: nat)
    requires Behaves(states, moves) && Fair(states, moves) && r in states(n).inbox && states(n).wake
    ensures n <= m && Drained(states(m), r)
  {
    assert TokenThere(states(n));
    var k: nat :| TokenTaken(moves, n, k);
    m := InboxUntil(states, moves, r, n, k);
    if !Drained(states(m), r) {
      DrainMoves(states, moves, r, k);
      assert StepAt(states, moves, k);
      m := WokenDrains(states, moves, r, k + 1);
    }
  }

  lemma PostDrains(states: nat -> Sys, moves: nat -> Step, r: Request, n: nat) returns (m: nat)
    requires Behaves(states, moves) && Fair(states, moves) && r in states(n).inbox && states(n).posting > 0
    ensures n <= m && Drained(states(m), r)
  {
    assert TokenOnItsWay(states(n));
    var k: nat :| TokenPosted(moves, n, k);
    m := InboxUntil(states, moves, r, n, k);
    if !Drained(states(m), r) {
      DrainMoves(states, moves, r, k);
      assert StepAt(states, moves, k);
      m := TokenDrains(states, moves, r, k + 1);
    }
  }

  lemma InboxIsDrained(states: nat -> Sys, moves: nat -> Step, r: Request, n: nat) returns (m: nat)
    requires Behaves(states, moves) && Fair(states, moves) && r in states(n).inbox
    ensures n <= m && Drained(states(m), r)
  {
    AlwaysInv(states, moves, n);
    assert StepAt(states, moves, n);
    if states(n).wake {
      m := TokenDrains(states, moves, r, n);
    } else if states(n).posting > 0 {
      m := PostDrains(states, moves, r, n);
    } else {
      m := WokenDrains(states, moves, r, n);
    }
  }

  lemma DrainedIsTaken(states: nat -> Sys, moves: nat -> Step, r: Request, n: nat) returns (m: nat)
    requires Behaves(states, moves) && Fair(states, moves) && Drained(states(n), r)
    ensures n <= m && Takes(states, moves, r, m)
  {
    var k := n;
    if r !in states(n).loop.queue { k := RerunComes(states, moves, r, n); }
    m := QueuedIsTaken(states, moves, r, k);
  }

  /** No starvation: however notifications, timers and listings keep arriving, every key that is owed a round
      is taken, as long as goroutines are scheduled, rounds end and the select passes no ready arm over for good. */
  lemma EveryKeyIsTaken(states: nat -> Sys, moves: nat -> Step, r: Request, n: nat) returns (m: nat)
    requires Behaves(states, moves) && Fair(states, moves) && r in states(n).owed
    ensures n <= m && Takes(states, moves, r, m)
  {
    AlwaysInv(states, moves, n);
    var k := n;
    if !Drained(states(n), r) { k := InboxIsDrained(states, moves, r, n); }
    m := DrainedIsTaken(states, moves, r, k);
  }
}
