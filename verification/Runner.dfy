/** The scheduler goroutine's operations as the source runs them, on fields updated in place. */
module Runner {
  import opened Reconcile

  /** What the lister of an event's kind answers during one firing. */
  function ListingOf(listings: map<string, Listing>, e: Event): Listing {
    if e.Resync? && e.kind in listings then listings[e.kind] else ListFailed
  }

  /** `r` is asked for by a due event of `events`. */
  ghost predicate AskedByDue(
    cfg: Config, events: seq<Event>, firedAt: int, listings: map<string, Listing>, r: Request)
  {
    exists e :: e in events && e.at <= firedAt && r in Fired(cfg, e, ListingOf(listings, e))
  }

  /** `r` has a retry due at `firedAt`. */
  ghost predicate RetryDue(events: seq<Event>, firedAt: int, r: Request) {
    exists at :: at <= firedAt && Retry(at, r) in events
  }

  /** A listing due at `firedAt` names `r`: its kind is registered with a lister, and that answers with `r`. */
  ghost predicate ListingDue(
    cfg: Config, events: seq<Event>, firedAt: int, listings: map<string, Listing>, r: Request)
  {
    exists at, kind :: at <= firedAt && Resync(at, kind) in events
      && kind in cfg.regs && cfg.regs[kind].lister
      && kind in listings && listings[kind].Listed? && r in listings[kind].keys
  }

  /** Due events ask for exactly the keys of due retries and of the listings that are answered. */
  lemma AskedMeans(cfg: Config, events: seq<Event>, firedAt: int, listings: map<string, Listing>, r: Request)
    ensures AskedByDue(cfg, events, firedAt, listings, r) <==>
              RetryDue(events, firedAt, r) || ListingDue(cfg, events, firedAt, listings, r)
  {
    if AskedByDue(cfg, events, firedAt, listings, r) {
      var e :| e in events && e.at <= firedAt && r in Fired(cfg, e, ListingOf(listings, e));
      if e.Retry? {
        assert Retry(e.at, r) in events;
      } else {
        assert Resync(e.at, e.kind) in events;
      }
    }
    if RetryDue(events, firedAt, r) {
      var at :| at <= firedAt && Retry(at, r) in events;
      assert r in Fired(cfg, Retry(at, r), ListingOf(listings, Retry(at, r)));
    }
    if ListingDue(cfg, events, firedAt, listings, r) {
      var at, kind :| at <= firedAt && Resync(at, kind) in events && kind in cfg.regs && cfg.regs[kind].lister
        && kind in listings && listings[kind].Listed? && r in listings[kind].keys;
      assert r in Fired(cfg, Resync(at, kind), ListingOf(listings, Resync(at, kind)));
    }
  }

  /** Listing `e` stays scheduled, or was due and is now one period past `firedAt` if its kind is periodic. */
  ghost predicate ListingMoved(cfg: Config, e: Event, after: seq<Event>, firedAt: int)
    requires e.Resync?
  {
    || e in after
    || (e.at <= firedAt && (e.kind in cfg.regs && cfg.regs[e.kind].lister && cfg.regs[e.kind].resync > 0 ==>
          Resync(firedAt + cfg.regs[e.kind].resync, e.kind) in after))
  }

  ghost predicate ListingsMoved(cfg: Config, before: seq<Event>, after: seq<Event>, firedAt: int) {
    forall e :: e in before && e.Resync? ==> ListingMoved(cfg, e, after, firedAt)
  }

  lemma OthersStay(events: seq<Event>, i: nat, more: seq<Event>, e: Event)
    requires i < |events| && e in events && e != events[i]
    ensures e in Without(events, i) + more
  {
    var rest := Without(events, i) + more;
    var k :| 0 <= k < |events| && events[k] == e;
    if k < i { assert rest[k] == e; } else { assert rest[k-1] == e; }
  }

  lemma FiringListings(cfg: Config, start: seq<Event>, events: seq<Event>, i: nat, firedAt: int)
    requires ListingsMoved(cfg, start, events, firedAt) && i < |events| && events[i].at <= firedAt
    ensures ListingsMoved(cfg, start, Without(events, i) + Rescheduled(cfg, events[i], firedAt), firedAt)
  {
    var more := Rescheduled(cfg, events[i], firedAt);
    var rest := Without(events, i) + more;
    forall e | e in start && e.Resync? ensures ListingMoved(cfg, e, rest, firedAt) {
      assert ListingMoved(cfg, e, events, firedAt);
      if e == events[i] {
        if more != [] { assert rest[|rest|-1] == more[0]; }
      } else if e in events {
        OthersStay(events, i, more, e);
      } else if cfg.Periodic(e.kind) {
        OthersStay(events, i, more, Resync(firedAt + cfg.regs[e.kind].resync, e.kind));
      }
    }
  }

  /** A future retry is still scheduled exactly as often as before. */
  ghost predicate RetriesKept(before: seq<Event>, after: seq<Event>, firedAt: int) {
    forall e: Event :: e.Retry? && e.at > firedAt ==> multiset(after)[e] == multiset(before)[e]
  }

  /** How far firing the due events of `start` has come. */
  ghost predicate FiringFrom(
    cfg: Config, start: Loop, l: Loop, firedAt: int, listings: map<string, Listing>)
  {
    && OnlyQueued(start.(events := l.events), l)
    && (forall r :: r in l.Waiting() ==>
          r in start.Waiting() || AskedByDue(cfg, start.events, firedAt, listings, r))
    && (forall r :: AskedByDue(cfg, start.events, firedAt, listings, r) ==>
          r in l.Waiting() || AskedByDue(cfg, l.events, firedAt, listings, r))
    && (forall r :: AskedByDue(cfg, l.events, firedAt, listings, r) ==>
          AskedByDue(cfg, start.events, firedAt, listings, r))
    && RetriesKept(start.events, l.events, firedAt) && ListingsMoved(cfg, start.events, l.events, firedAt)
  }

  lemma FiringAsks(cfg: Config, events: seq<Event>, i: nat, firedAt: int, listings: map<string, Listing>, r: Request)
    requires i < |events| && events[i].at <= firedAt
    ensures var rest := Without(events, i) + Rescheduled(cfg, events[i], firedAt);
            AskedByDue(cfg, events, firedAt, listings, r) <==>
              r in Fired(cfg, events[i], ListingOf(listings, events[i])) || AskedByDue(cfg, rest, firedAt, listings, r)
  {
    var rest := Without(events, i) + Rescheduled(cfg, events[i], firedAt);
    forall e | e in events && e != events[i] ensures e in rest {
      OthersStay(events, i, Rescheduled(cfg, events[i], firedAt), e);
    }
    forall e | e in rest && e.at <= firedAt ensures e in events {
      assert e in Without(events, i);
    }
    assert events[i] in events;
  }

  lemma FiringRetries(cfg: Config, events: seq<Event>, i: nat, firedAt: int)
    requires i < |events| && events[i].at <= firedAt
    ensures RetriesKept(events, Without(events, i) + Rescheduled(cfg, events[i], firedAt), firedAt)
  {
    assert events == events[..i] + [events[i]] + events[i+1..];
  }

  lemma FiringStep(cfg: Config, start: Loop, l: Loop, i: nat, firedAt: int, listings: map<string, Listing>)
    requires FiringFrom(cfg, start, l, firedAt, listings) && i < |l.events| && l.events[i].at <= firedAt
    ensures FiringFrom(cfg, start, FireEvent(cfg, l, i, firedAt, ListingOf(listings, l.events[i])), firedAt, listings)
  {
    var e := l.events[i];
    var keys := Fired(cfg, e, ListingOf(listings, e));
    var l' := l.(events := Without(l.events, i) + Rescheduled(cfg, e, firedAt));
    EnqueueAllKeeps(l', keys);
    FiringRetries(cfg, l.events, i, firedAt);
    FiringListings(cfg, start.events, l.events, i, firedAt);
    forall r ensures AskedByDue(cfg, l.events, firedAt, listings, r) <==>
                     r in keys || AskedByDue(cfg, l'.events, firedAt, listings, r)
    {
      FiringAsks(cfg, l.events, i, firedAt, listings, r);
    }
  }

  /** With nothing left due, the firing has done all it was asked for. */
  lemma FiringDone(cfg: Config, start: Loop, l: Loop, firedAt: int, listings: map<string, Listing>)
    requires FiringFrom(cfg, start, l, firedAt, listings) && forall i :: 0 <= i < |l.events| ==> l.events[i].at > firedAt
    ensures forall r :: r in l.Waiting() <==>
              r in start.Waiting() || RetryDue(start.events, firedAt, r) || ListingDue(cfg, start.events, firedAt, listings, r)
    ensures forall e :: e in start.events && e.Resync? ==>
              if e.at > firedAt then e in l.events
              else e.kind in cfg.regs && cfg.regs[e.kind].lister && cfg.regs[e.kind].resync > 0 ==>
                     Resync(firedAt + cfg.regs[e.kind].resync, e.kind) in l.events
  {
    assert forall r :: !AskedByDue(cfg, l.events, firedAt, listings, r);
    forall r ensures r in l.Waiting() <==>
              r in start.Waiting() || RetryDue(start.events, firedAt, r) || ListingDue(cfg, start.events, firedAt, listings, r)
    {
      AskedMeans(cfg, start.events, firedAt, listings, r);
      assert r in start.Waiting() ==> r in l.Waiting();
    }
    forall e | e in start.events && e.Resync? ensures ListingMoved(cfg, e, l.events, firedAt) {}
  }

  lemma ListingsStart(cfg: Config, events: seq<Event>, now: int)
    requires ResyncsScheduled(cfg, events) && forall e :: e in events ==> e.Resync? && e.at == now
    ensures forall kind :: Resync(now, kind) in events <==>
              kind in cfg.regs && cfg.regs[kind].lister && cfg.regs[kind].resync > 0
  {
    forall kind ensures Resync(now, kind) in events <==> CountIf(ResyncOf(kind), events) > 0 {
      CountPositive(ResyncOf(kind), events);
      if CountIf(ResyncOf(kind), events) > 0 {
        var i :| 0 <= i < |events| && ResyncOf(kind)(events[i]);
        assert events[i] == Resync(now, kind);
      }
      if Resync(now, kind) in events {
        var i :| 0 <= i < |events| && events[i] == Resync(now, kind);
        assert ResyncOf(kind)(events[i]);
      }
    }
  }

  lemma DrainKeepsValid(cfg: Config, l: Loop, order: seq<Request>)
    requires Good(cfg, l)
    ensures var m := EnqueueAll(l, order);
            && Good(cfg, m) && m.Waiting() == l.Waiting() + Elements(order)
  {
    EnqueueAllConsistent(l, order, cfg.workers);
    EnqueueAllKeeps(l, order);
  }

  class Runner {
    const cfg: Config
    var inbox: set<Request>
    var wake: bool
    var pending: set<Request>
    var queue: seq<Request>
    var inFlight: set<Request>
    var after: set<Request>
    var fails: map<Request, nat>
    var events: seq<Event>
    var busy: nat

    ghost function View(): Loop
      reads this
    {
      Loop(pending, queue, inFlight, after, fails, events, busy)
    }

    ghost predicate Valid()
      reads this
    {
      Good(cfg, View())
    }

    constructor (cfg: Config, now: int)
      requires cfg.Valid()
      ensures Valid() && this.cfg == cfg && inbox == {} && !wake
      ensures View() == Loop({}, [], {}, {}, map[], events, 0)
      ensures forall e :: e in events ==> e.Resync? && e.at == now
      ensures forall kind :: Resync(now, kind) in events <==>
                kind in cfg.regs && cfg.regs[kind].lister && cfg.regs[kind].resync > 0
    {
      this.cfg := cfg;
      inbox, wake := {}, false;
      pending, queue, inFlight, after, fails, busy := {}, [], {}, {}, map[], 0;
      events := [];
      new;
      ScheduleListings(now);
    }

    /** An initial listing of every kind that is listed periodically. */
    method ScheduleListings(now: int)
      requires events == []
      modifies this`events
      ensures ResyncsScheduled(cfg, events)
      ensures forall e :: e in events ==> e.Resync? && e.at == now
      ensures forall kind :: Resync(now, kind) in events <==>
                kind in cfg.regs && cfg.regs[kind].lister && cfg.regs[kind].resync > 0
    {
      var kinds := cfg.regs.Keys;
      while kinds != {}
        invariant kinds <= cfg.regs.Keys
        invariant forall e :: e in events ==> e.Resync? && e.at == now
        invariant forall k :: CountIf(ResyncOf(k), events) == if cfg.Periodic(k) && k !in kinds then 1 else 0
        decreases |kinds|
      {
        var kind :| kind in kinds;
        kinds := kinds - {kind};
        if cfg.regs[kind].lister && cfg.regs[kind].resync > 0 {
          forall k ensures CountIf(ResyncOf(k), events + [Resync(now, kind)])
                        == CountIf(ResyncOf(k), events) + if k == kind then 1 else 0
          {
            CountAppend(ResyncOf(k), events, Resync(now, kind));
          }
          events := events + [Resync(now, kind)];
        }
      }
      ListingsStart(cfg, events, now);
    }

    /** Any goroutine: record the key and post the wake token, or drop an unregistered kind. */
    method Notify(kind: string, key: string)
      modifies this`inbox, this`wake
      ensures kind in cfg.regs ==> inbox == old(inbox) + {Request(kind, key)} && wake
      ensures kind !in cfg.regs ==> inbox == old(inbox) && wake == old(wake)
    {
      if kind !in cfg.regs { return; }
      inbox := inbox + {Request(kind, key)};
      if !wake { wake := true; }
    }

    method AddRound(req: Request)
      modifies this`pending, this`queue, this`after
      ensures View() == Enqueue(old(View()), req)
    {
      if req in inFlight {
        after := after + {req};
        return;
      }
      if req in pending { return; }
      pending := pending + {req};
      queue := queue + [req];
    }

    /** Moves the notified keys into the queue, in whatever order the batch is walked. */
    method DrainInbox() returns (ghost order: seq<Request>)
      requires Valid()
      modifies this`inbox, this`pending, this`queue, this`after
      ensures Valid() && inbox == {}
      ensures Distinct(order) && Elements(order) == old(inbox)
      ensures View() == EnqueueAll(old(View()), order)
      ensures View().Waiting() == old(View().Waiting()) + old(inbox)
    {
      var batch := inbox;
      inbox := {};
      order := [];
      while batch != {}
        invariant inbox == {} && batch <= old(inbox) && Distinct(order) && Elements(order) == old(inbox) - batch
        invariant View() == EnqueueAll(old(View()), order)
        decreases |batch|
      {
        var req :| req in batch;
        batch := batch - {req};
        EnqueueAllAppend(old(View()), order, req);
        ElementsAppend(order, req);
        AddRound(req);
        order := order + [req];
      }
      DrainKeepsValid(cfg, old(View()), order);
    }

    /** Pops the earliest event: reschedules a listing before asking the lister, then queues keys. */
    method FireNext(firedAt: int, listings: map<string, Listing>) returns (ghost i: nat)
      requires events != []
      modifies this`events, this`pending, this`queue, this`after
      ensures Earliest(old(events), i)
      ensures View() == FireEvent(cfg, old(View()), i, firedAt, ListingOf(listings, old(events)[i]))
    {
      var k := Front(events);
      i := k;
      var e := events[k];
      events := events[..k] + events[k+1..];
      if e.Resync? {
        if cfg.Periodic(e.kind) {
          events := events + [Resync(firedAt + cfg.regs[e.kind].resync, e.kind)];
        }
        assert events == Without(old(events), k) + Rescheduled(cfg, e, firedAt);
        if e.kind in cfg.regs && cfg.regs[e.kind].lister {
          var listing := ListingOf(listings, e);
          if listing.Listed? { AddRounds(listing.keys); }
        }
      } else {
        assert events == Without(old(events), k) + Rescheduled(cfg, e, firedAt);
        AddRounds([e.req]);
      }
    }

    /** Pops every event due at `firedAt`, earliest first. */
    method FireDue(firedAt: int, listings: map<string, Listing>)
      requires Valid()
      modifies this`events, this`pending, this`queue, this`after
      ensures Valid()
      ensures forall i :: 0 <= i < |events| ==> events[i].at > firedAt
      ensures forall r :: r in View().Waiting() <==>
                || r in old(View().Waiting())
                || RetryDue(old(events), firedAt, r)
                || ListingDue(cfg, old(events), firedAt, listings, r)
      ensures OnlyQueued(old(View()).(events := events), View())
      ensures RetriesKept(old(events), events, firedAt)
      ensures forall e :: e in old(events) && e.Resync? ==>
                if e.at > firedAt then e in events
                else e.kind in cfg.regs && cfg.regs[e.kind].lister && cfg.regs[e.kind].resync > 0 ==>
                       Resync(firedAt + cfg.regs[e.kind].resync, e.kind) in events
    {
      ghost var start := View();
      while exists i :: 0 <= i < |events| && events[i].at <= firedAt
        invariant Valid() && FiringFrom(cfg, start, View(), firedAt, listings)
        decreases CountIf(DueBy(firedAt), events)
      {
        ghost var before := View();
        var i := FireNext(firedAt, listings);
        FireEventKeeps(cfg, before, i, firedAt, ListingOf(listings, before.events[i]));
        FiringLeavesFewerDue(cfg, before, i, firedAt, ListingOf(listings, before.events[i]));
        FiringStep(cfg, start, before, i, firedAt, listings);
      }
      FiringDone(cfg, start, View(), firedAt, listings);
    }

    method AddRounds(reqs: seq<Request>)
      modifies this`pending, this`queue, this`after
      ensures View() == EnqueueAll(old(View()), reqs)
    {
      for k := 0 to |reqs|
        invariant View() == EnqueueAll(old(View()), reqs[..k])
      {
        EnqueueAllAppend(old(View()), reqs[..k], reqs[k]);
        assert reqs[..k+1] == reqs[..k] + [reqs[k]];
        AddRound(reqs[k]);
      }
      assert reqs[..|reqs|] == reqs;
    }

    method TakeFront(ghost start: Loop, ghost n: nat) returns (req: Request)
      requires queue != [] && n < |start.queue| && View() == PopN(start, n)
      modifies this`pending, this`queue, this`inFlight, this`busy
      ensures View() == PopN(start, n + 1) && req == start.queue[n] && busy == old(busy) + 1
    {
      PopNext(start, n);
      req := queue[0];
      queue := queue[1..];
      pending := pending - {req};
      inFlight := inFlight + {req};
      busy := busy + 1;
    }

    /** Hands queued keys to idle workers; after `sends` hand-offs the context is cancelled, and the
        key then being handed over has already left the queue. */
    method HandOut(sends: nat) returns (sent: seq<Request>, cancelled: bool)
      requires busy <= cfg.workers
      modifies this`pending, this`queue, this`inFlight, this`busy
      ensures |sent| <= sends && |sent| <= |old(queue)| && sent == old(queue)[..|sent|]
      ensures !cancelled ==> View() == PopN(old(View()), |sent|) && (busy == cfg.workers || queue == [])
      ensures cancelled ==> |sent| == sends < |old(queue)| && View() == PopN(old(View()), sends + 1)
      ensures busy <= cfg.workers
    {
      ghost var start := View();
      sent, cancelled := [], false;
      assert start == PopN(start, 0);
      while busy < cfg.workers && |queue| > 0
        invariant |sent| <= |start.queue| && |sent| <= sends && View() == PopN(start, |sent|)
        invariant sent == start.queue[..|sent|] && busy <= cfg.workers
        decreases |queue|
      {
        var req := TakeFront(start, |sent|);
        if |sent| == sends {
          cancelled := true;
          break;
        }
        sent := sent + [req];
      }
    }

    method Dispatch(sends: nat) returns (sent: seq<Request>, cancelled: bool)
      requires Valid()
      modifies this`pending, this`queue, this`inFlight, this`busy
      ensures Valid()
      ensures |sent| <= sends && |sent| <= |old(queue)| && sent == old(queue)[..|sent|]
      ensures !cancelled ==> View() == PopN(old(View()), |sent|) && (busy == cfg.workers || queue == [])
      ensures cancelled ==> |sent| == sends < |old(queue)| && View() == PopN(old(View()), sends + 1)
    {
      ghost var start := View();
      sent, cancelled := HandOut(sends);
      PopNKeeps(cfg, start, if cancelled then sends + 1 else |sent|);
    }

    method SettleRound(req: Request, outcome: Outcome, now: int)
      requires cfg.Valid() && busy > 0
      modifies this`busy, this`inFlight, this`fails, this`events
      ensures View() == Settle(cfg, old(View()), req, outcome, now)
    {
      busy := busy - 1;
      inFlight := inFlight - {req};
      match outcome {
        case Failed =>
          var n := (if req in fails then fails[req] else 0) + 1;
          fails := fails[req := n];
          var idx := n - 1;
          if idx >= |cfg.backoff| { idx := |cfg.backoff| - 1; }
          events := events + [Retry(now + cfg.backoff[idx], req)];
        case Done(requeueAfter) =>
          fails := fails - {req};
          if requeueAfter > 0 { events := events + [Retry(now + requeueAfter, req)]; }
      }
    }

    /** A worker reported: settle the round, then queue the coalesced rerun if there is one. */
    method HandleCompletion(req: Request, outcome: Outcome, now: int)
      requires Valid() && req in inFlight
      modifies this`busy, this`inFlight, this`fails, this`events, this`pending, this`queue, this`after
      ensures Valid() && old(busy) > 0
      ensures View() == Complete(cfg, old(View()), req, outcome, now)
    {
      CompleteConsistent(cfg, View(), req, outcome, now);
      CompleteTracks(cfg, View(), req, outcome, now);
      SettleRound(req, outcome, now);
      if req in after {
        after := after - {req};
        AddRound(req);
      }
    }
  }

  /** What a completion leaves behind: a coalesced notification becomes a queued round, a failure is
      scheduled for a retry no later than the longest step, a success clears the count. */
  lemma CompletionOutcome(cfg: Config, l: Loop, req: Request, outcome: Outcome, now: int)
    requires cfg.Valid() && Consistent(l, cfg.workers) && req in l.inFlight && l.busy > 0
    ensures var m := Complete(cfg, l, req, outcome, now);
            && (req in l.after <==> req in m.queue) && req !in m.after && req !in m.inFlight
            && (outcome.Failed? ==> FailCount(m, req) == FailCount(l, req) + 1)
            && (outcome.Failed? ==> exists step :: step in cfg.backoff && m.events == l.events + [Retry(now + step, req)])
            && (outcome.Done? ==> FailCount(m, req) == 0)
            && (outcome.Done? && outcome.requeueAfter > 0 ==> m.events == l.events + [Retry(now + outcome.requeueAfter, req)])
            && (outcome.Done? && outcome.requeueAfter <= 0 ==> m.events == l.events)
  {
    var m := Complete(cfg, l, req, outcome, now);
    assert req !in l.queue by { assert req !in l.pending; }
    if outcome.Failed? {
      var step := BackoffStep(cfg, FailCount(l, req) + 1);
      assert step in cfg.backoff && m.events == l.events + [Retry(now + step, req)];
    }
  }
}
