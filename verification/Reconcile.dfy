/** The state the reconcile scheduler's loop owns, and what each of its operations does to it. */
module Reconcile {

  datatype Request = Request(kind: string, key: string)

  /** What the loop needs of a registration; `resync` is the period, disabled when not positive. */
  datatype Registration = Registration(lister: bool, resync: int)

  datatype Config = Config(workers: nat, backoff: seq<int>, regs: map<string, Registration>) {
    predicate Valid() { workers > 0 && |backoff| > 0 }

    /** Kinds that are listed periodically. */
    predicate Periodic(kind: string) {
      kind in regs && regs[kind].lister && regs[kind].resync > 0
    }
  }

  /** A scheduled future action. */
  datatype Event = Retry(at: int, req: Request) | Resync(at: int, kind: string)

  datatype Outcome = Failed | Done(requeueAfter: int)

  datatype Listing = ListFailed | Listed(keys: seq<Request>)

  datatype Loop = Loop(
    pending: set<Request>, queue: seq<Request>, inFlight: set<Request>, after: set<Request>,
    fails: map<Request, nat>, events: seq<Event>, busy: nat)
  {
    /** Keys that will get another round. */
    function Waiting(): set<Request> { pending + after }
  }

  predicate Distinct(s: seq<Request>) {
    forall i, j :: 0 <= i < j < |s| ==> s[i] != s[j]
  }

  function Elements(s: seq<Request>): set<Request> {
    set r | r in s
  }

  lemma ElementsAppend(s: seq<Request>, r: Request)
    ensures Elements(s + [r]) == Elements(s) + {r}
    ensures Distinct(s) && r !in Elements(s) ==> Distinct(s + [r])
  {}

  /** The loop's own invariant. */
  predicate Consistent(l: Loop, workers: nat) {
    && Distinct(l.queue) && l.pending == Elements(l.queue)
    && l.pending !! l.inFlight && l.after <= l.inFlight
    && l.busy == |l.inFlight| <= workers
  }

  // ----- Adding a round for a key

  function Enqueue(l: Loop, req: Request): Loop {
    if req in l.inFlight then l.(after := l.after + {req})
    else if req in l.pending then l
    else l.(pending := l.pending + {req}, queue := l.queue + [req])
  }

  function EnqueueAll(l: Loop, reqs: seq<Request>): Loop
    decreases |reqs|
  {
    if reqs == [] then l else EnqueueAll(Enqueue(l, reqs[0]), reqs[1..])
  }

  /** Everything but the waiting keys is as before, and the queue only grows at its end. */
  predicate OnlyQueued(l: Loop, m: Loop) {
    && m.inFlight == l.inFlight && m.fails == l.fails && m.events == l.events && m.busy == l.busy
    && l.queue <= m.queue && l.pending <= m.pending && l.after <= m.after
  }

  lemma EnqueueConsistent(l: Loop, req: Request, workers: nat)
    requires Consistent(l, workers)
    ensures Consistent(Enqueue(l, req), workers)
  {
    if req !in l.inFlight && req !in l.pending {
      assert req !in l.queue;
      assert Elements(l.queue + [req]) == l.pending + {req};
    }
  }

  lemma EnqueueKeeps(l: Loop, req: Request)
    ensures var m := Enqueue(l, req);
            && OnlyQueued(l, m)
            && m.Waiting() == l.Waiting() + {req}
            && |m.queue| + |m.after| <= |l.queue| + |l.after| + 1
  {
    assert |l.after + {req}| <= |l.after| + 1;
  }

  lemma {:induction false} EnqueueAllConsistent(l: Loop, reqs: seq<Request>, workers: nat)
    requires Consistent(l, workers)
    ensures Consistent(EnqueueAll(l, reqs), workers)
    decreases |reqs|
  {
    if reqs != [] {
      EnqueueConsistent(l, reqs[0], workers);
      EnqueueAllConsistent(Enqueue(l, reqs[0]), reqs[1..], workers);
    }
  }

  lemma {:induction false} EnqueueAllKeeps(l: Loop, reqs: seq<Request>)
    ensures var m := EnqueueAll(l, reqs);
            && OnlyQueued(l, m)
            && m.Waiting() == l.Waiting() + Elements(reqs)
            && |m.queue| + |m.after| <= |l.queue| + |l.after| + |reqs|
    decreases |reqs|
  {
    if reqs != [] {
      EnqueueKeeps(l, reqs[0]);
      EnqueueAllKeeps(Enqueue(l, reqs[0]), reqs[1..]);
      assert Elements(reqs) == {reqs[0]} + Elements(reqs[1..]);
    } else {
      assert Elements(reqs) == {};
    }
  }

  lemma {:induction false} EnqueueAllAppend(l: Loop, reqs: seq<Request>, req: Request)
    ensures EnqueueAll(l, reqs + [req]) == Enqueue(EnqueueAll(l, reqs), req)
    decreases |reqs|
  {
    if reqs == [] {
      assert [req][1..] == [];
      assert EnqueueAll(Enqueue(l, req), []) == Enqueue(l, req);
    } else {
      assert (reqs + [req])[1..] == reqs[1..] + [req];
      EnqueueAllAppend(Enqueue(l, reqs[0]), reqs[1..], req);
    }
  }

  // ----- Scheduled events

  function CountIf(p: Event -> bool, events: seq<Event>): nat {
    if events == [] then 0 else (if p(events[0]) then 1 else 0) + CountIf(p, events[1..])
  }

  function DueBy(t: int): Event -> bool {
    (e: Event) => e.at <= t
  }

  function ResyncOf(kind: string): Event -> bool {
    (e: Event) => e.Resync? && e.kind == kind
  }

  function RetryOf(req: Request): Event -> bool {
    (e: Event) => e.Retry? && e.req == req
  }

  function Without(events: seq<Event>, i: nat): seq<Event>
    requires i < |events|
  {
    events[..i] + events[i+1..]
  }

  lemma {:induction false} CountConcat(p: Event -> bool, a: seq<Event>, b: seq<Event>)
    ensures CountIf(p, a + b) == CountIf(p, a) + CountIf(p, b)
  {
    if a == [] {
      assert a + b == b;
    } else {
      assert (a + b)[1..] == a[1..] + b;
      CountConcat(p, a[1..], b);
    }
  }

  lemma CountWithout(p: Event -> bool, events: seq<Event>, i: nat)
    requires i < |events|
    ensures CountIf(p, Without(events, i)) == CountIf(p, events) - (if p(events[i]) then 1 else 0)
  {
    CountConcat(p, events[..i], events[i+1..]);
    CountConcat(p, [events[i]], events[i+1..]);
    CountConcat(p, events[..i], [events[i]] + events[i+1..]);
    assert events == events[..i] + ([events[i]] + events[i+1..]);
  }

  lemma CountAppend(p: Event -> bool, events: seq<Event>, e: Event)
    ensures CountIf(p, events + [e]) == CountIf(p, events) + (if p(e) then 1 else 0)
  {
    CountConcat(p, events, [e]);
  }

  lemma {:induction false} CountPositive(p: Event -> bool, events: seq<Event>)
    ensures CountIf(p, events) > 0 <==> exists i :: 0 <= i < |events| && p(events[i])
  {
    if events != [] {
      CountPositive(p, events[1..]);
      assert forall i :: 1 <= i < |events| ==> events[i] == events[1..][i-1];
      if CountIf(p, events[1..]) > 0 {
        var i :| 0 <= i < |events[1..]| && p(events[1..][i]);
        assert p(events[i+1]);
      }
    }
  }

  /** Every periodic kind has exactly one scheduled listing, every other kind none. */
  ghost predicate ResyncsScheduled(cfg: Config, events: seq<Event>) {
    forall kind :: CountIf(ResyncOf(kind), events) == if cfg.Periodic(kind) then 1 else 0
  }

  /** A key that failed is waiting, being worked on, or scheduled for a retry. */
  ghost predicate FailuresTracked(l: Loop) {
    forall r :: r in l.fails ==>
      l.fails[r] > 0 && (r in l.pending || r in l.inFlight || CountIf(RetryOf(r), l.events) > 0)
  }

  /** Index `i` holds an event no other precedes: what the event heap pops. */
  predicate Earliest(events: seq<Event>, i: nat) {
    i < |events| && forall j :: 0 <= j < |events| ==> events[i].at <= events[j].at
  }

  /** The event at the top of the heap. */
  function Front(events: seq<Event>): (i: nat)
    requires events != []
    ensures Earliest(events, i)
  {
    if |events| == 1 then 0 else
    var j, n := Front(events[..|events|-1]), |events| - 1;
    assert forall k :: 0 <= k < n ==> events[..n][k] == events[k];
    if events[n].at < events[j].at then n else j
  }

  /** The keys one popped event adds, given what its lister answers. */
  function Fired(cfg: Config, e: Event, listing: Listing): seq<Request> {
    match e
    case Retry(_, req) => [req]
    case Resync(_, kind) =>
      if kind in cfg.regs && cfg.regs[kind].lister && listing.Listed? then listing.keys else []
  }

  function Rescheduled(cfg: Config, e: Event, firedAt: int): seq<Event> {
    if e.Resync? && cfg.Periodic(e.kind) then [Resync(firedAt + cfg.regs[e.kind].resync, e.kind)] else []
  }

  /** Popping event `i` at `firedAt`: schedule the next listing first, then add the keys. */
  function FireEvent(cfg: Config, l: Loop, i: nat, firedAt: int, listing: Listing): Loop
    requires i < |l.events|
  {
    var e := l.events[i];
    EnqueueAll(l.(events := Without(l.events, i) + Rescheduled(cfg, e, firedAt)), Fired(cfg, e, listing))
  }

  lemma FiringReschedules(cfg: Config, events: seq<Event>, i: nat, firedAt: int)
    requires i < |events| && events[i].at <= firedAt && ResyncsScheduled(cfg, events)
    ensures var rest := Without(events, i) + Rescheduled(cfg, events[i], firedAt);
            ResyncsScheduled(cfg, rest)
  {
    var more := Rescheduled(cfg, events[i], firedAt);
    forall p: Event -> bool
      ensures CountIf(p, Without(events, i) + more)
           == CountIf(p, events) - (if p(events[i]) then 1 else 0) + CountIf(p, more)
    {
      CountWithout(p, events, i);
      CountConcat(p, Without(events, i), more);
    }
    CountPositive(ResyncOf(if events[i].Resync? then events[i].kind else ""), events);
    forall kind ensures CountIf(ResyncOf(kind), more) ==
      if events[i].Resync? && events[i].kind == kind && cfg.Periodic(kind) then 1 else 0
    {
      if more != [] { assert more[1..] == []; }
    }
  }

  lemma RetrySurvives(l: Loop, i: nat, more: seq<Event>, r: Request)
    requires i < |l.events|
    ensures CountIf(RetryOf(r), l.events) > 0 && !RetryOf(r)(l.events[i]) ==>
              CountIf(RetryOf(r), Without(l.events, i) + more) > 0
  {
    CountWithout(RetryOf(r), l.events, i);
    CountConcat(RetryOf(r), Without(l.events, i), more);
  }

  /** Firing a due event leaves one fewer due: a listing is rescheduled past `firedAt`. */
  lemma FiringLeavesFewerDue(cfg: Config, l: Loop, i: nat, firedAt: int, listing: Listing)
    requires i < |l.events| && l.events[i].at <= firedAt
    ensures CountIf(DueBy(firedAt), FireEvent(cfg, l, i, firedAt, listing).events)
         == CountIf(DueBy(firedAt), l.events) - 1
  {
    var more := Rescheduled(cfg, l.events[i], firedAt);
    CountWithout(DueBy(firedAt), l.events, i);
    CountConcat(DueBy(firedAt), Without(l.events, i), more);
    assert CountIf(DueBy(firedAt), more) == 0 by { if more != [] { assert more[1..] == []; } }
    EnqueueAllKeeps(l.(events := Without(l.events, i) + more), Fired(cfg, l.events[i], listing));
  }

  /** What firing one due event keeps. */
  lemma FireEventKeeps(cfg: Config, l: Loop, i: nat, firedAt: int, listing: Listing)
    requires Consistent(l, cfg.workers) && FailuresTracked(l) && ResyncsScheduled(cfg, l.events)
    requires i < |l.events| && l.events[i].at <= firedAt
    ensures var m := FireEvent(cfg, l, i, firedAt, listing);
            && Consistent(m, cfg.workers) && FailuresTracked(m) && ResyncsScheduled(cfg, m.events)
            && m.Waiting() == l.Waiting() + Elements(Fired(cfg, l.events[i], listing))
            && OnlyQueued(l.(events := m.events), m)
  {
    var e := l.events[i];
    var more := Rescheduled(cfg, e, firedAt);
    var l' := l.(events := Without(l.events, i) + more);
    var reqs := Fired(cfg, e, listing);
    var m := FireEvent(cfg, l, i, firedAt, listing);
    FiringReschedules(cfg, l.events, i, firedAt);
    EnqueueAllConsistent(l', reqs, cfg.workers);
    EnqueueAllKeeps(l', reqs);
    forall r | r in m.fails
      ensures m.fails[r] > 0 && (r in m.pending || r in m.inFlight || CountIf(RetryOf(r), m.events) > 0)
    {
      RetrySurvives(l, i, more, r);
      if e.Retry? && e.req == r {
        assert r in Elements(reqs);
        assert r in m.Waiting();
      }
    }
  }

  /** What one popped event makes wait: the key of a retry, or what the lister of a registered kind answers. */
  lemma FiringQueues(cfg: Config, l: Loop, i: nat, firedAt: int, listing: Listing)
    requires i < |l.events|
    ensures FireEvent(cfg, l, i, firedAt, listing).Waiting() == l.Waiting() +
              match l.events[i]
              case Retry(_, req) => {req}
              case Resync(_, kind) =>
                if kind in cfg.regs && cfg.regs[kind].lister && listing.Listed? then Elements(listing.keys) else {}
  {
    var e := l.events[i];
    EnqueueAllKeeps(l.(events := Without(l.events, i) + Rescheduled(cfg, e, firedAt)), Fired(cfg, e, listing));
    if e.Retry? { assert Elements([e.req]) == {e.req}; }
  }

  // ----- Handing keys to workers

  function PopFront(l: Loop): Loop
    requires l.queue != []
  {
    var req := l.queue[0];
    l.(queue := l.queue[1..], pending := l.pending - {req},
       inFlight := l.inFlight + {req}, busy := l.busy + 1)
  }

  lemma PopFrontKeeps(l: Loop, workers: nat)
    requires Consistent(l, workers) && l.queue != [] && l.busy < workers
    ensures var m := PopFront(l);
            && Consistent(m, workers)
            && m.Waiting() == l.Waiting() - {l.queue[0]}
            && (FailuresTracked(l) ==> FailuresTracked(m))
  {
    var req, m := l.queue[0], PopFront(l);
    assert req in l.pending;
    assert Elements(l.queue[1..]) == l.pending - {req} by {
      assert forall r :: r in l.queue <==> r == req || r in l.queue[1..];
    }
    assert |m.inFlight| == |l.inFlight| + 1;
  }

  /** The first `n` queued keys handed out. */
  function PopN(l: Loop, n: nat): Loop
    requires n <= |l.queue|
  {
    l.(queue := l.queue[n..], pending := l.pending - Elements(l.queue[..n]),
       inFlight := l.inFlight + Elements(l.queue[..n]), busy := l.busy + n)
  }

  lemma PopNext(l: Loop, n: nat)
    requires n < |l.queue|
    ensures PopFront(PopN(l, n)) == PopN(l, n + 1) && PopN(l, n).queue[0] == l.queue[n]
  {
    assert l.queue[..n+1] == l.queue[..n] + [l.queue[n]];
    ElementsAppend(l.queue[..n], l.queue[n]);
    var a, b := l.pending - Elements(l.queue[..n]) - {l.queue[n]}, l.pending - Elements(l.queue[..n+1]);
    assert a == b;
  }

  /** Everything the loop keeps from one select to the next. */
  ghost predicate Good(cfg: Config, l: Loop) {
    && cfg.Valid() && Consistent(l, cfg.workers)
    && FailuresTracked(l) && ResyncsScheduled(cfg, l.events)
  }

  lemma {:induction false} PopNKeeps(cfg: Config, l: Loop, n: nat)
    requires n <= |l.queue| && l.busy + n <= cfg.workers && Good(cfg, l)
    ensures Good(cfg, PopN(l, n))
  {
    if n == 0 {
      assert PopN(l, 0) == l;
    } else {
      PopNKeeps(cfg, l, n - 1);
      PopNext(l, n - 1);
      PopFrontKeeps(PopN(l, n - 1), cfg.workers);
    }
  }

  // ----- Completions

  /** The wait before retry number `fails`, capped by the last step. */
  function BackoffStep(cfg: Config, fails: nat): int
    requires cfg.Valid() && fails > 0
  {
    var idx := fails - 1;
    cfg.backoff[if idx >= |cfg.backoff| then |cfg.backoff| - 1 else idx]
  }

  function FailCount(l: Loop, req: Request): nat {
    if req in l.fails then l.fails[req] else 0
  }

  /** Everything a completion does before a coalesced rerun. */
  function Settle(cfg: Config, l: Loop, req: Request, outcome: Outcome, now: int): Loop
    requires cfg.Valid() && l.busy > 0
  {
    var m := l.(busy := l.busy - 1, inFlight := l.inFlight - {req});
    match outcome
    case Failed =>
      var n := FailCount(l, req) + 1;
      m.(fails := l.fails[req := n], events := l.events + [Retry(now + BackoffStep(cfg, n), req)])
    case Done(requeueAfter) =>
      m.(fails := l.fails - {req},
         events := l.events + if requeueAfter > 0 then [Retry(now + requeueAfter, req)] else [])
  }

  function Complete(cfg: Config, l: Loop, req: Request, outcome: Outcome, now: int): Loop
    requires cfg.Valid() && l.busy > 0
  {
    var m := Settle(cfg, l, req, outcome, now);
    if req in l.after then Enqueue(m.(after := l.after - {req}), req) else m
  }

  lemma SettleTracks(cfg: Config, l: Loop, req: Request, outcome: Outcome, now: int)
    requires cfg.Valid() && l.busy > 0 && FailuresTracked(l) && ResyncsScheduled(cfg, l.events)
    ensures var m := Settle(cfg, l, req, outcome, now);
            FailuresTracked(m) && ResyncsScheduled(cfg, m.events)
  {
    var m := Settle(cfg, l, req, outcome, now);
    var more := m.events[|l.events|..];
    assert m.events == l.events + more;
    forall p: Event -> bool ensures CountIf(p, m.events) == CountIf(p, l.events) + CountIf(p, more) {
      CountConcat(p, l.events, more);
    }
    if more != [] {
      assert more == [more[0]] && more[1..] == [] && RetryOf(req)(more[0]);
      forall kind ensures CountIf(ResyncOf(kind), more) == 0 {}
    }
  }

  lemma CompleteConsistent(cfg: Config, l: Loop, req: Request, outcome: Outcome, now: int)
    requires cfg.Valid() && Consistent(l, cfg.workers) && req in l.inFlight
    ensures l.busy > 0
    ensures Consistent(Complete(cfg, l, req, outcome, now), cfg.workers)
  {
    assert |l.inFlight - {req}| == |l.inFlight| - 1;
    var t := Settle(cfg, l, req, outcome, now).(after := l.after - {req});
    assert Consistent(t, cfg.workers);
    EnqueueConsistent(t, req, cfg.workers);
  }

  lemma CompleteQueue(cfg: Config, l: Loop, req: Request, outcome: Outcome, now: int)
    requires cfg.Valid() && l.busy > 0
    ensures var m := Complete(cfg, l, req, outcome, now);
            && l.queue <= m.queue && m.inFlight == l.inFlight - {req} && m.busy == l.busy - 1
            && (req !in l.pending ==>
                  m.Waiting() == l.Waiting() && |m.queue| + |m.after| == |l.queue| + |l.after|)
  {
    if req in l.after {
      assert |l.after - {req}| == |l.after| - 1;
    }
  }

  lemma CompleteTracks(cfg: Config, l: Loop, req: Request, outcome: Outcome, now: int)
    requires cfg.Valid() && l.busy > 0
    requires FailuresTracked(l) && ResyncsScheduled(cfg, l.events)
    ensures var m := Complete(cfg, l, req, outcome, now);
            FailuresTracked(m) && ResyncsScheduled(cfg, m.events)
  {
    SettleTracks(cfg, l, req, outcome, now);
  }
}
