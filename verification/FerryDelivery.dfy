/** What reaches a destination's stream: whole frames, each once, in the order each source sent them. */
module FerryDelivery {
  import opened Types
  import opened RelayProtocol
  import opened RelaySession
  import opened FerrySystem
  import opened RelayStreams

  /** The frames a session has written, is writing, or will write. */
  function Pipe(x: Conn): seq<Item> {
    x.sent + (if x.fwd.writer.Writing? then [x.fwd.writer.item] else []) + x.fwd.queue
  }

  function Flatten(items: seq<Item>): seq<byte> {
    if items == [] then [] else items[0].frame + Flatten(items[1..])
  }

  function TailBytes(tail: Tail): seq<byte> {
    match tail
    case Clean => []
    case Cut(item, bytes) => if bytes <= |item.frame| then item.frame[..bytes] else []
  }

  lemma {:induction false} FlattenAppend(items: seq<Item>, item: Item)
    ensures Flatten(items + [item]) == Flatten(items) + item.frame
  {
    if items == [] {
      assert [item][1..] == [];
      assert Flatten([item]) == item.frame + Flatten([]);
    } else {
      assert (items + [item])[1..] == items[1..] + [item];
      FlattenAppend(items[1..], item);
      assert items[0].frame + (Flatten(items[1..]) + item.frame) == Flatten(items) + item.frame;
    }
  }

  // ----- The invariant

  /** `item` is, byte for byte, a frame its source asked to relay to `d`, and already dealt with. */
  predicate Genuine(s: Ferry, d: nat, item: Item)
    requires d < |s.conns|
  {
    && item.src < |s.conns| && item.idx < s.conns[item.src].pos <= |s.conns[item.src].script|
    && s.conns[item.src].script[item.idx] == Relayed(s.conns[d].peer, item.frame)
    && Reachable(s, d)
  }

  /** Per source, strictly increasing: in order and without repetition. */
  predicate InOrder(items: seq<Item>) {
    forall i, j :: 0 <= i < j < |items| && items[i].src == items[j].src ==> items[i].idx < items[j].idx
  }

  predicate PipeOk(s: Ferry, d: nat)
    requires d < |s.conns|
  {
    (forall item :: item in Pipe(s.conns[d]) ==> Genuine(s, d, item)) && InOrder(Pipe(s.conns[d]))
  }

  predicate Apart(x: Conn, y: Conn) {
    forall a, b :: a in Pipe(x) && b in Pipe(y) ==> a.src != b.src || a.idx != b.idx
  }

  /** A stream is its greeting, the frames written whole, and at most a cut last one. */
  predicate WireOk(x: Conn) {
    && x.wire == x.greeting + Flatten(x.sent) + TailBytes(x.tail)
    && (x.tail.Cut? ==> x.fwd.writer.Exited? && x.tail.bytes < |x.tail.item.frame|)
  }

  predicate HandlerOk(s: Ferry, c: nat)
    requires c < |s.conns|
  {
    var x := s.conns[c];
    && x.pos <= |x.script|
    && (x.handler.Holding? ==>
          && x.pos < |x.script| && x.script[x.pos].Relayed?
          && x.handler.dst < |s.conns| && s.conns[x.handler.dst].peer == x.script[x.pos].to)
  }

  predicate TailOk(s: Ferry, c: nat)
    requires c < |s.conns|
  {
    s.conns[c].tail.Cut? ==> Genuine(s, c, s.conns[c].tail.item)
  }

  predicate LocalOk(s: Ferry, c: nat)
    requires c < |s.conns|
  {
    HandlerOk(s, c) && WireOk(s.conns[c]) && TailOk(s, c)
  }

  predicate DataInv(s: Ferry) {
    && (forall c :: 0 <= c < |s.conns| ==> LocalOk(s, c) && PipeOk(s, c))
    && (forall c, d :: 0 <= c < d < |s.conns| ==> Apart(s.conns[c], s.conns[d]))
  }

  /** Nothing a source asked for, and no progress, is ever taken back. */
  predicate Grows(s: Ferry, t: Ferry) {
    && t.strict == s.strict && |s.conns| <= |t.conns|
    && forall c :: 0 <= c < |s.conns| ==> GrowsTo(s.conns[c], t.conns[c])
  }

  predicate GrowsTo(x: Conn, y: Conn) {
    y.peer == x.peer && y.script == x.script && x.pos <= y.pos <= |y.script| && (x.verified ==> y.verified)
  }

  lemma GenuineStays(s: Ferry, t: Ferry, d: nat, item: Item)
    requires d < |s.conns| && Grows(s, t) && Genuine(s, d, item)
    ensures Genuine(t, d, item)
  {
    assert GrowsTo(s.conns[d], t.conns[d]) && GrowsTo(s.conns[item.src], t.conns[item.src]);
  }

  lemma HandlerStays(s: Ferry, t: Ferry, c: nat)
    requires c < |s.conns| && Grows(s, t) && HandlerOk(s, c) && t.conns[c] == s.conns[c]
    ensures HandlerOk(t, c)
  {
    if s.conns[c].handler.Holding? {
      assert GrowsTo(s.conns[s.conns[c].handler.dst], t.conns[s.conns[c].handler.dst]);
    }
  }

  /** A connection that did not change, in a state where the others only grew. */
  lemma OthersStay(s: Ferry, t: Ferry, c: nat)
    requires c < |s.conns| && Grows(s, t) && LocalOk(s, c) && PipeOk(s, c) && t.conns[c] == s.conns[c]
    ensures LocalOk(t, c) && PipeOk(t, c)
  {
    HandlerStays(s, t, c);
    if s.conns[c].tail.Cut? { GenuineStays(s, t, c, s.conns[c].tail.item); }
    forall item | item in Pipe(t.conns[c]) ensures Genuine(t, c, item) { GenuineStays(s, t, c, item); }
  }

  /** A step that changes one connection without putting anything new in its pipe. */
  lemma OneChanges(s: Ferry, t: Ferry, c: nat)
    requires DataInv(s) && c < |s.conns| && |t.conns| == |s.conns| && t.strict == s.strict
    requires forall d :: 0 <= d < |s.conns| && d != c ==> t.conns[d] == s.conns[d]
    requires GrowsTo(s.conns[c], t.conns[c])
    requires forall item :: item in Pipe(t.conns[c]) ==> item in Pipe(s.conns[c])
    requires InOrder(Pipe(t.conns[c])) && HandlerOk(t, c) && WireOk(t.conns[c]) && TailOk(t, c)
    ensures DataInv(t)
  {
    forall d | 0 <= d < |s.conns| ensures GrowsTo(s.conns[d], t.conns[d]) {
      assert LocalOk(s, d);
    }
    forall d | 0 <= d < |t.conns| ensures LocalOk(t, d) && PipeOk(t, d) {
      assert LocalOk(s, d) && PipeOk(s, d);
      if d != c {
        OthersStay(s, t, d);
      } else {
        forall item | item in Pipe(t.conns[c]) ensures Genuine(t, c, item) { GenuineStays(s, t, c, item); }
      }
    }
    forall i, j | 0 <= i < j < |t.conns| ensures Apart(t.conns[i], t.conns[j]) {
      assert Apart(s.conns[i], s.conns[j]);
    }
  }

  // ----- The steps

  lemma NewConnection(s: Ferry, c: Client)
    requires Enabled(s, Connect(c))
    ensures var x := Connected(s, c);
            Pipe(x) == [] && WireOk(x) && x.tail.Clean? && x.handler.Serving? && x.pos == 0
  {
    var x := Connected(s, c);
    assert x.wire == x.greeting + Flatten([]) + [];
  }

  lemma JoinedKeeps(s: Ferry, t: Ferry, x: Conn)
    requires DataInv(s) && t.conns == s.conns + [x] && t.strict == s.strict
    requires Pipe(x) == [] && WireOk(x) && x.tail.Clean? && x.handler.Serving? && x.pos == 0
    ensures DataInv(t)
  {
    var n := |s.conns|;
    forall d | 0 <= d < n ensures GrowsTo(s.conns[d], t.conns[d]) { assert LocalOk(s, d); }
    forall d | 0 <= d < n ensures LocalOk(t, d) && PipeOk(t, d) {
      assert LocalOk(s, d) && PipeOk(s, d);
      OthersStay(s, t, d);
    }
    assert t.conns[n] == x;
    forall i, j | 0 <= i < j < |t.conns| ensures Apart(t.conns[i], t.conns[j]) {
      if j < n { assert Apart(s.conns[i], s.conns[j]); }
    }
  }

  lemma ConnectKeeps(s: Ferry, step: Step)
    requires DataInv(s) && step.Connect? && Enabled(s, step)
    ensures DataInv(Apply(s, step))
  {
    NewConnection(s, step.client);
    JoinedKeeps(s, Apply(s, step), Connected(s, step.client));
  }

  predicate Writes(step: Step) {
    step.WriterTakes? || step.WriteDone? || step.WriteFails?
  }

  /** Steps that leave what is written, being written and queued alone. */
  lemma QuietSession(s: Ferry, step: Step)
    requires Enabled(s, step) && !step.Connect? && !step.Enqueue? && !Writes(step)
    ensures var x, y := s.conns[step.c], NextConn(s, step);
            Pipe(y) == Pipe(x) && (WireOk(x) ==> WireOk(y))
  {}

  lemma TakesKeeps(sent: seq<Item>, queue: seq<Item>)
    requires queue != []
    ensures sent + [queue[0]] + queue[1..] == sent + [] + queue
  {}

  lemma WriterKeepsPipe(s: Ferry, step: Step)
    requires Enabled(s, step) && Writes(step)
    ensures var x, y := s.conns[step.c], NextConn(s, step);
            && (!step.WriteFails? ==> Pipe(y) == Pipe(x))
            && (step.WriteFails? ==> x.fwd.writer.Writing? && Pipe(y) == x.sent + x.fwd.queue)
  {
    var x := s.conns[step.c];
    if step.WriterTakes? { TakesKeeps(x.sent, x.fwd.queue); }
  }

  lemma WriterKeepsWire(s: Ferry, step: Step)
    requires Enabled(s, step) && Writes(step) && WireOk(s.conns[step.c])
    ensures WireOk(NextConn(s, step))
  {
    var x := s.conns[step.c];
    if step.WriteDone? { FlattenAppend(x.sent, x.fwd.writer.item); }
    if !step.WriterTakes? { WholeWire(x); }
  }

  lemma WholeWire(x: Conn)
    requires WireOk(x) && x.fwd.writer.Writing?
    ensures x.tail.Clean? && x.wire == x.greeting + Flatten(x.sent)
    ensures forall more: seq<byte> :: x.wire + more == x.greeting + (Flatten(x.sent) + more)
  {}

  lemma OneStepPipe(s: Ferry, step: Step)
    requires Enabled(s, step) && !step.Connect? && !step.Enqueue? && InOrder(Pipe(s.conns[step.c]))
    requires WireOk(s.conns[step.c])
    ensures var x, y := s.conns[step.c], NextConn(s, step);
            InOrder(Pipe(y)) && WireOk(y) && forall item :: item in Pipe(y) ==> item in Pipe(x)
  {
    if Writes(step) {
      WriterKeepsPipe(s, step);
      WriterKeepsWire(s, step);
      if step.WriteFails? { DropMiddle(s.conns[step.c]); }
    } else {
      QuietSession(s, step);
    }
  }

  lemma OneStepKeeps(s: Ferry, step: Step)
    requires TableInv(s) && DataInv(s) && Enabled(s, step) && !step.Connect? && !step.Enqueue?
    ensures DataInv(Apply(s, step))
  {
    var t, c := Apply(s, step), step.c;
    assert LocalOk(s, c) && PipeOk(s, c);
    assert t.conns[c] == NextConn(s, step);
    OneStepPipe(s, step);
    NextGrows(s, step);
    HandlerAfter(s, step);
    TailAfter(s, step);
    OneChanges(s, t, c);
  }

  lemma NextGrows(s: Ferry, step: Step)
    requires Enabled(s, step) && !step.Connect? && !step.Enqueue? && HandlerOk(s, step.c)
    ensures GrowsTo(s.conns[step.c], NextConn(s, step))
  {}

  lemma DropMiddle(x: Conn)
    requires InOrder(Pipe(x)) && x.fwd.writer.Writing?
    ensures InOrder(x.sent + x.fwd.queue)
  {
    var p, q := Pipe(x), x.sent + x.fwd.queue;
    var n := |x.sent|;
    forall i, j | 0 <= i < j < |q| && q[i].src == q[j].src ensures q[i].idx < q[j].idx {
      assert q[i] == p[if i < n then i else i + 1] && q[j] == p[if j < n then j else j + 1];
    }
  }

  lemma HandlerAfter(s: Ferry, step: Step)
    requires SlotsOk(s) && Enabled(s, step) && !step.Connect? && !step.Enqueue? && HandlerOk(s, step.c)
    ensures HandlerOk(Apply(s, step), step.c)
  {
    var t, c, y := Apply(s, step), step.c, NextConn(s, step);
    assert t.conns == s.conns[c := y];
    NextGrows(s, step);
    NextHandler(s, step);
    if y.handler.Holding? { assert t.conns[y.handler.dst].peer == s.conns[y.handler.dst].peer; }
  }

  /** Only looking a destination up makes a handler hold one: the session in the slot the frame is for. */
  lemma NextHandler(s: Ferry, step: Step)
    requires SlotsOk(s) && Enabled(s, step) && !step.Connect? && !step.Enqueue? && HandlerOk(s, step.c)
    ensures var x, y := s.conns[step.c], NextConn(s, step);
            y.handler.Holding? ==>
              && y.pos == x.pos < |x.script| && x.script[x.pos].Relayed?
              && y.handler.dst < |s.conns| && s.conns[y.handler.dst].peer == x.script[x.pos].to
  {}

  lemma NextTail(s: Ferry, step: Step)
    requires Enabled(s, step) && !step.Connect? && !step.Enqueue?
    ensures var x, y := s.conns[step.c], NextConn(s, step);
            if step.WriteFails? then x.fwd.writer.Writing? && y.tail == Cut(x.fwd.writer.item, step.bytes) else y.tail == x.tail
  {}

  lemma TailAfter(s: Ferry, step: Step)
    requires Enabled(s, step) && !step.Connect? && !step.Enqueue? && TailOk(s, step.c) && PipeOk(s, step.c)
    requires HandlerOk(s, step.c)
    ensures TailOk(Apply(s, step), step.c)
  {
    var t, c := Apply(s, step), step.c;
    NextTail(s, step);
    NextGrows(s, step);
    assert t.conns == s.conns[c := NextConn(s, step)];
    if step.WriteFails? { assert s.conns[c].fwd.writer.item in Pipe(s.conns[c]); }
    if t.conns[c].tail.Cut? { GenuineUpdated(s, c, NextConn(s, step), t, t.conns[c].tail.item); }
  }

  lemma GenuineUpdated(s: Ferry, c: nat, y: Conn, t: Ferry, item: Item)
    requires c < |s.conns| && GrowsTo(s.conns[c], y) && t.conns == s.conns[c := y] && t.strict == s.strict
    requires Genuine(s, c, item)
    ensures Genuine(t, c, item)
  {}

  /** Handing over a frame: it joins exactly one pipe, behind everything from the same source. */
  lemma EnqueueKeeps(s: Ferry, step: Step)
    requires DataInv(s) && Enabled(s, step) && step.Enqueue?
    ensures DataInv(Apply(s, step))
  {
    var c := step.c;
    assert LocalOk(s, c);
    var d := s.conns[c].handler.dst;
    var t := Apply(s, step);
    assert LocalOk(s, d) && PipeOk(s, d);
    EnqueueGrows(s, step);
    forall e | 0 <= e < |t.conns| ensures LocalOk(t, e) && PipeOk(t, e) {
      assert LocalOk(s, e) && PipeOk(s, e);
      PipeAfterEnqueue(s, step, e);
      LocalAfterEnqueue(s, step, e);
    }
    forall i, j | 0 <= i < j < |t.conns| ensures Apart(t.conns[i], t.conns[j]) {
      assert Apart(s.conns[i], s.conns[j]) && PipeOk(s, i) && PipeOk(s, j);
      PipeShape(s, step, i);
      PipeShape(s, step, j);
    }
  }

  lemma EnqueueGrows(s: Ferry, step: Step)
    requires DataInv(s) && Enabled(s, step) && step.Enqueue?
    ensures Grows(s, Apply(s, step))
  {
    var t := Apply(s, step);
    forall e | 0 <= e < |s.conns| ensures GrowsTo(s.conns[e], t.conns[e]) {
      assert LocalOk(s, e);
    }
  }

  function NewItem(s: Ferry, step: Step): Item
    requires Enabled(s, step) && step.Enqueue?
  {
    var x := s.conns[step.c];
    Item(step.c, x.pos, x.script[x.pos].frame)
  }

  predicate Joins(s: Ferry, step: Step, e: nat)
    requires Enabled(s, step) && step.Enqueue?
  {
    e == s.conns[step.c].handler.dst && Reachable(s, e) && step.accept
  }

  lemma PipeShape(s: Ferry, step: Step, e: nat)
    requires Enabled(s, step) && step.Enqueue? && e < |s.conns|
    ensures Pipe(Apply(s, step).conns[e])
         == Pipe(s.conns[e]) + if Joins(s, step, e) then [NewItem(s, step)] else []
  {
    DeliveredFrom(s, step.c, step.accept, e);
    QueuedPipe(s, step, e);
  }

  lemma QueuedPipe(s: Ferry, step: Step, e: nat)
    requires Enabled(s, step) && step.Enqueue? && e < |s.conns|
    ensures Pipe(Queued(s, step.c, step.accept).conns[e])
         == Pipe(s.conns[e]) + if Joins(s, step, e) then [NewItem(s, step)] else []
  {
    var x, y := s.conns[e], Queued(s, step.c, step.accept).conns[e];
    if Joins(s, step, e) {
      assert y.fwd.queue == x.fwd.queue + [NewItem(s, step)];
    }
  }

  lemma AppendInOrder(items: seq<Item>, item: Item)
    requires InOrder(items) && forall x :: x in items && x.src == item.src ==> x.idx < item.idx
    ensures InOrder(items + [item])
  {}

  lemma PipeAfterEnqueue(s: Ferry, step: Step, e: nat)
    requires Enabled(s, step) && step.Enqueue? && e < |s.conns| && Grows(s, Apply(s, step))
    requires PipeOk(s, e) && HandlerOk(s, step.c)
    ensures PipeOk(Apply(s, step), e)
  {
    var t := Apply(s, step);
    PipeShape(s, step, e);
    forall item | item in Pipe(s.conns[e]) ensures Genuine(t, e, item) { GenuineStays(s, t, e, item); }
    if Joins(s, step, e) {
      assert Genuine(t, e, NewItem(s, step));
      AppendInOrder(Pipe(s.conns[e]), NewItem(s, step));
    }
  }

  lemma LocalAfterEnqueue(s: Ferry, step: Step, e: nat)
    requires Enabled(s, step) && step.Enqueue? && e < |s.conns| && Grows(s, Apply(s, step)) && LocalOk(s, e)
    ensures LocalOk(Apply(s, step), e)
  {
    var t := Apply(s, step);
    if s.conns[e].tail.Cut? { GenuineStays(s, t, e, s.conns[e].tail.item); }
    if e != step.c && s.conns[e].handler.Holding? {
      assert GrowsTo(s.conns[s.conns[e].handler.dst], t.conns[s.conns[e].handler.dst]);
    }
  }

  lemma StepKeepsData(s: Ferry, step: Step)
    requires TableInv(s) && DataInv(s) && Enabled(s, step)
    ensures DataInv(Apply(s, step))
  {
    if step.Connect? {
      ConnectKeeps(s, step);
    } else if step.Enqueue? {
      EnqueueKeeps(s, step);
    } else {
      OneStepKeeps(s, step);
    }
  }

  // ----- Over every run

  predicate Init(s: Ferry) {
    s == Ferry(s.token, s.strict, [], map[], {}, map[])
  }

  lemma {:induction false} RunKeeps(s: Ferry, steps: seq<Step>, t: Ferry)
    requires TableInv(s) && DataInv(s) && Run(s, steps, t)
    ensures TableInv(t) && DataInv(t)
    decreases |steps|
  {
    if steps != [] {
      TableKept(s, steps[0]);
      StepKeepsData(s, steps[0]);
      RunKeeps(Apply(s, steps[0]), steps[1..], t);
    }
  }

  /** Over every run of the relay: a stream carries only whole frames but for a last one cut by
      closing; each is byte for byte one its source addressed there, per source in order; no frame is
      relayed twice, anywhere; and under strict authentication only verified sessions receive. */
  lemma {:induction false} DeliverySafety(s: Ferry, steps: seq<Step>, t: Ferry, d: nat)
    requires Init(s) && Run(s, steps, t) && d < |t.conns|
    ensures var x := t.conns[d];
            && x.wire == x.greeting + Flatten(x.sent) + TailBytes(x.tail)
            && (x.tail.Cut? ==> x.tail.bytes < |x.tail.item.frame|)
            && InOrder(x.sent)
            && (forall item :: item in x.sent ==>
                  && item.src < |t.conns| && item.idx < |t.conns[item.src].script|
                  && t.conns[item.src].script[item.idx] == Relayed(x.peer, item.frame))
            && (t.strict && x.sent != [] ==> x.verified)
    ensures forall e, a, b :: 0 <= e < |t.conns| && e != d && a in t.conns[d].sent && b in t.conns[e].sent ==>
              a.src != b.src || a.idx != b.idx
  {
    RunKeeps(s, steps, t);
    var x := t.conns[d];
    assert LocalOk(t, d) && PipeOk(t, d);
    SentInOrder(x);
    forall item | item in x.sent ensures Genuine(t, d, item) { assert item in Pipe(x); }
    if x.sent != [] { assert Genuine(t, d, x.sent[0]); }
    forall e, a, b | 0 <= e < |t.conns| && e != d && a in t.conns[d].sent && b in t.conns[e].sent
      ensures a.src != b.src || a.idx != b.idx
    {
      assert a in Pipe(t.conns[d]) && b in Pipe(t.conns[e]);
      assert if e < d then Apart(t.conns[e], t.conns[d]) else Apart(t.conns[d], t.conns[e]);
    }
  }

  lemma SentInOrder(x: Conn)
    requires InOrder(Pipe(x))
    ensures InOrder(x.sent)
  {
    forall i | 0 <= i < |x.sent| ensures x.sent[i] == Pipe(x)[i] {}
  }

  /** Over every run of the relay: the slot of a peer holds the session that registered last, unless
      that very session gave it up; a displaced session is shut down or owed a shutdown; and shutting
      down closes a stream at most once. */
  lemma {:induction false} TableSafety(s: Ferry, steps: seq<Step>, t: Ferry)
    requires Init(s) && Run(s, steps, t)
    ensures forall p :: p in t.slots ==> p in t.latest && t.slots[p] == t.latest[p] < |t.conns|
    ensures forall p :: p in t.latest && p !in t.slots ==> t.latest[p] < |t.conns| && t.conns[t.latest[p]].left
    ensures forall c :: 0 <= c < |t.conns| && t.conns[c].registered ==>
              Owns(t, c) || t.conns[c].fwd.once || c in t.owed
    ensures forall c :: 0 <= c < |t.conns| ==> t.conns[c].fwd.closes <= 1 && |t.conns[c].fwd.queue| <= QUEUE_DEPTH
  {
    RunKeeps(s, steps, t);
    forall c | 0 <= c < |t.conns| ensures Wf(t.conns[c].fwd) {}
  }

  // ----- Nothing is lost without a trace

  /** How many frames the steps of a run from `s` hand to session `d`. */
  function Handed(s: Ferry, steps: seq<Step>, d: nat): nat
    decreases |steps|
  {
    if steps == [] || !Enabled(s, steps[0]) then 0
    else (if HandsTo(s, steps[0], d) then 1 else 0) + Handed(Apply(s, steps[0]), steps[1..], d)
  }

  predicate HandsTo(s: Ferry, step: Step, d: nat)
    requires Enabled(s, step)
  {
    step.Enqueue? && s.conns[step.c].handler.dst == d && Reachable(s, d)
  }

  /** The frames a session can account for: in its pipe, cut at the end of its stream, or counted as dropped. */
  function Accounted(x: Conn): nat {
    |Pipe(x)| + (if x.tail.Cut? then 1 else 0) + x.fwd.dropped
  }

  lemma OwnStepConserves(s: Ferry, step: Step)
    requires Enabled(s, step) && !step.Connect? && !step.Enqueue? && WireOk(s.conns[step.c])
    ensures Accounted(NextConn(s, step)) == Accounted(s.conns[step.c])
  {
    if Writes(step) { WriterKeepsPipe(s, step); } else { QuietSession(s, step); }
  }

  lemma HandOverConserves(s: Ferry, step: Step, d: nat)
    requires Enabled(s, step) && step.Enqueue? && d < |s.conns|
    ensures Accounted(Apply(s, step).conns[d]) == Accounted(s.conns[d]) + if HandsTo(s, step, d) then 1 else 0
  {
    PipeShape(s, step, d);
    DeliveredFrom(s, step.c, step.accept, d);
  }

  function AccountedAt(s: Ferry, d: nat): nat {
    if d < |s.conns| then Accounted(s.conns[d]) else 0
  }

  lemma StepConserves(s: Ferry, step: Step, d: nat)
    requires Enabled(s, step) && (d < |s.conns| ==> WireOk(s.conns[d]))
    ensures AccountedAt(Apply(s, step), d) == AccountedAt(s, d) + if HandsTo(s, step, d) then 1 else 0
  {
    if d >= |s.conns| {
      if step.Connect? { NewConnection(s, step.client); }
    } else if step.Enqueue? {
      HandOverConserves(s, step, d);
    } else if step.Connect? || step.c != d {
      OthersUntouched(s, step, d);
    } else {
      OwnStepConserves(s, step);
    }
  }

  lemma {:induction false} RunConserves(s: Ferry, steps: seq<Step>, t: Ferry, d: nat)
    requires TableInv(s) && DataInv(s) && Run(s, steps, t)
    ensures AccountedAt(t, d) == AccountedAt(s, d) + Handed(s, steps, d)
    decreases |steps|
  {
    if steps != [] {
      if d < |s.conns| { assert LocalOk(s, d); }
      StepConserves(s, steps[0], d);
      TableKept(s, steps[0]);
      StepKeepsData(s, steps[0]);
      RunConserves(Apply(s, steps[0]), steps[1..], t, d);
    }
  }

  /** Conservation over every run: each frame handed to a session has been written whole, is being written or
      queued, is the one cut at the end of its stream, or is counted as dropped. */
  lemma {:induction false} EveryFrameAccounted(s: Ferry, steps: seq<Step>, t: Ferry, d: nat)
    requires Init(s) && Run(s, steps, t) && d < |t.conns|
    ensures var x := t.conns[d];
            Handed(s, steps, d) == |x.sent| + (if x.fwd.writer.Writing? then 1 else 0) + |x.fwd.queue|
                                   + (if x.tail.Cut? then 1 else 0) + x.fwd.dropped
  {
    RunConserves(s, steps, t, d);
  }

  /** A handler with a frame to relay is never blocked by its destination: it can look it up, and then hand the
      frame over or drop it. An open session with room takes it. */
  lemma RelayingNeverBlocks(s: Ferry, c: nat)
    requires DataInv(s) && c < |s.conns| && s.conns[c].pos < |s.conns[c].script|
    requires s.conns[c].script[s.conns[c].pos].Relayed? && !s.conns[c].handler.Finished?
    ensures s.conns[c].handler.Serving? ==> Enabled(s, Lookup(c))
    ensures s.conns[c].handler.Holding? ==> Enabled(s, Enqueue(c, true)) || Enabled(s, Enqueue(c, false))
    ensures s.conns[c].handler.Holding? ==>
              var d := s.conns[c].handler.dst;
              d < |s.conns| && (Reachable(s, d) && !s.conns[d].fwd.done && |s.conns[d].fwd.queue| < 256 ==>
                                  Enabled(s, Enqueue(c, true)) && !Enabled(s, Enqueue(c, false)))
  {
    assert LocalOk(s, c);
  }

  /** The writer takes the first queued frame and writes it. */
  lemma WritesFirst(s: Ferry, d: nat)
    requires d < |s.conns| && s.conns[d].fwd.writer.Waiting? && !s.conns[d].fwd.closed && s.conns[d].fwd.queue != []
    ensures Enabled(s, WriterTakes(d)) && Enabled(Apply(s, WriterTakes(d)), WriteDone(d))
    ensures var t := Apply(Apply(s, WriterTakes(d)), WriteDone(d));
            && |t.conns| == |s.conns|
            && var x, y := s.conns[d], t.conns[d];
            && y.fwd.writer.Waiting? && !y.fwd.closed && y.fwd.queue == x.fwd.queue[1..]
            && y.sent == x.sent + [x.fwd.queue[0]] && y.wire == x.wire + x.fwd.queue[0].frame
  {}

  lemma {:induction false} SameDelivered(sent: seq<Item>, wire: seq<byte>, queue: seq<Item>)
    requires queue != []
    ensures sent + [queue[0]] + queue[1..] == sent + queue
    ensures wire + queue[0].frame + Flatten(queue[1..]) == wire + Flatten(queue)
  {
    var frame, rest := queue[0].frame, Flatten(queue[1..]);
    assert wire + frame + rest == wire + (frame + rest);
  }

  /** And on an open stream everything queued can be written out, in order, by the writer alone. */
  lemma QueueDrains(s: Ferry, d: nat) returns (steps: seq<Step>, t: Ferry)
    requires d < |s.conns| && s.conns[d].fwd.writer.Waiting? && !s.conns[d].fwd.closed
    ensures Run(s, steps, t) && d < |t.conns| && forall step :: step in steps ==> MovesWriter(step, d)
    ensures var x, y := s.conns[d], t.conns[d];
            y.fwd.queue == [] && y.sent == x.sent + x.fwd.queue && y.wire == x.wire + Flatten(x.fwd.queue)
  {
    var x := s.conns[d];
    steps, t := [], s;
    while t.conns[d].fwd.queue != []
      invariant Run(s, steps, t) && d < |t.conns| && forall step :: step in steps ==> MovesWriter(step, d)
      invariant t.conns[d].fwd.writer.Waiting? && !t.conns[d].fwd.closed
      invariant t.conns[d].sent + t.conns[d].fwd.queue == x.sent + x.fwd.queue
      invariant t.conns[d].wire + Flatten(t.conns[d].fwd.queue) == x.wire + Flatten(x.fwd.queue)
      decreases |t.conns[d].fwd.queue|
    {
      var y := t.conns[d];
      WritesFirst(t, d);
      SameDelivered(y.sent, y.wire, y.fwd.queue);
      RunAppend(s, steps, t, WriterTakes(d));
      steps, t := steps + [WriterTakes(d)], Apply(t, WriterTakes(d));
      RunAppend(s, steps, t, WriteDone(d));
      steps, t := steps + [WriteDone(d)], Apply(t, WriteDone(d));
    }
  }

  // ----- From one client's bytes to another's packets

  /** A connection behaves as its bytes say. */
  predicate Scripted(s: Ferry, x: Conn) {
    && (x.client.challenge.Some? ==> |x.client.challenge.value.key| == 32)
    && x.peer == PeerOf(x.client.input) && x.script == Script(s.token, s.strict, x.client)
    && x.greeting == Concat(Greetings(s.token, x.client))
  }

  predicate AllScripted(s: Ferry) {
    forall c :: 0 <= c < |s.conns| ==> Scripted(s, s.conns[c])
  }

  predicate SameOrigin(x: Conn, y: Conn) {
    y.client == x.client && y.peer == x.peer && y.script == x.script && y.greeting == x.greeting
  }

  lemma StepKeepsOrigin(s: Ferry, step: Step, c: nat)
    requires Enabled(s, step) && c < |s.conns|
    ensures c < |Apply(s, step).conns| && SameOrigin(s.conns[c], Apply(s, step).conns[c])
  {
    if step.Enqueue? {
      QueuedKeepsOrigin(s, step.c, step.accept, c);
      DeliveredFrom(s, step.c, step.accept, c);
    } else if step.Connect? || step.c != c {
      OthersUntouched(s, step, c);
    } else {
      NextKeepsOrigin(s, step);
    }
  }

  lemma StepKeepsMode(s: Ferry, step: Step)
    requires Enabled(s, step)
    ensures Apply(s, step).token == s.token && Apply(s, step).strict == s.strict
  {}

  lemma QueuedKeepsOrigin(s: Ferry, c: nat, accept: bool, d: nat)
    requires Enabled(s, Enqueue(c, accept)) && d < |s.conns|
    ensures SameOrigin(s.conns[d], Queued(s, c, accept).conns[d])
  {}

  lemma NextKeepsOrigin(s: Ferry, step: Step)
    requires Enabled(s, step) && !step.Connect? && !step.Enqueue?
    ensures SameOrigin(s.conns[step.c], NextConn(s, step))
  {}

  lemma StepKeepsScripts(s: Ferry, step: Step)
    requires AllScripted(s) && Enabled(s, step)
    ensures AllScripted(Apply(s, step))
  {
    var t := Apply(s, step);
    StepKeepsMode(s, step);
    forall c | 0 <= c < |t.conns| ensures Scripted(t, t.conns[c]) {
      if c < |s.conns| {
        StepKeepsOrigin(s, step, c);
        assert Scripted(s, s.conns[c]);
      }
    }
  }

  lemma {:induction false} RunKeepsScripts(s: Ferry, steps: seq<Step>, t: Ferry)
    requires AllScripted(s) && Run(s, steps, t)
    ensures AllScripted(t)
    decreases |steps|
  {
    if steps != [] {
      StepKeepsScripts(s, steps[0]);
      RunKeepsScripts(Apply(s, steps[0]), steps[1..], t);
    }
  }

  // ----- Who is verified

  lemma StrictScript(s: Ferry, x: Conn, i: nat)
    requires Scripted(s, x) && s.strict && i < |x.script|
    ensures x.script[i].Registered? ==> x.script[i].verified
  {
    var p := Peer(PeerOf(x.client.input), true, Verifier(x.client.challenge));
    StrictRegistersFirst(p, AfterRegister(x.client.input));
    if i > 0 { assert x.script[i] in x.script[1..]; }
  }

  predicate Vouched(x: Conn) {
    x.registered ==> x.verified
  }

  lemma QueuedKeepsVouched(s: Ferry, c: nat, accept: bool, d: nat)
    requires Enabled(s, Enqueue(c, accept)) && d < |s.conns| && Vouched(s.conns[d])
    ensures Vouched(Queued(s, c, accept).conns[d])
  {}

  lemma NextKeepsVouched(s: Ferry, step: Step)
    requires Enabled(s, step) && !step.Connect? && !step.Enqueue? && Vouched(s.conns[step.c])
    requires s.strict && Scripted(s, s.conns[step.c])
    ensures Vouched(NextConn(s, step))
  {
    if step.Register? { StrictScript(s, s.conns[step.c], s.conns[step.c].pos); }
  }

  lemma StepKeepsVouched(s: Ferry, step: Step, c: nat)
    requires Enabled(s, step) && c < |s.conns| && s.strict && Scripted(s, s.conns[c]) && Vouched(s.conns[c])
    ensures c < |Apply(s, step).conns| && Vouched(Apply(s, step).conns[c])
  {
    if step.Enqueue? {
      QueuedKeepsVouched(s, step.c, step.accept, c);
      DeliveredFrom(s, step.c, step.accept, c);
    } else if step.Connect? || step.c != c {
      OthersUntouched(s, step, c);
    } else {
      NextKeepsVouched(s, step);
    }
  }

  lemma {:induction false} RunKeepsVouched(s: Ferry, steps: seq<Step>, t: Ferry)
    requires AllScripted(s) && Run(s, steps, t) && s.strict && forall c :: 0 <= c < |s.conns| ==> Vouched(s.conns[c])
    ensures t.strict && forall c :: 0 <= c < |t.conns| ==> Vouched(t.conns[c])
    decreases |steps|
  {
    if steps != [] {
      var u := Apply(s, steps[0]);
      StepKeepsScripts(s, steps[0]);
      StepKeepsMode(s, steps[0]);
      forall c | 0 <= c < |u.conns| ensures Vouched(u.conns[c]) {
        if c < |s.conns| { StepKeepsVouched(s, steps[0], c); }
      }
      RunKeepsVouched(u, steps[1..], t);
    }
  }

  /** Over every run of a strict relay, whoever is registered is verified, so every slot can be reached. */
  lemma StrictSlotsAreReachable(s: Ferry, steps: seq<Step>, t: Ferry, p: uint32)
    requires Init(s) && s.strict && Run(s, steps, t) && p in t.slots
    ensures t.slots[p] < |t.conns| && t.conns[t.slots[p]].verified && Reachable(t, t.slots[p])
  {
    RunKeepsVouched(s, steps, t);
    RunKeeps(s, steps, t);
  }

  function FramesOf(items: seq<Item>): (fs: seq<Frame>)
    ensures |fs| == |items|
    ensures forall i :: 0 <= i < |items| ==> fs[i] == FrameOf(items[i].frame)
  {
    seq(|items|, i requires 0 <= i < |items| => FrameOf(items[i].frame))
  }

  predicate WholeFrame(bytes: seq<byte>) {
    FrameOf(bytes).Wf() && FrameOf(bytes).Wire() == bytes
  }

  lemma {:induction false} FramesOnTheWire(items: seq<Item>)
    requires forall item :: item in items ==> WholeFrame(item.frame)
    ensures Concat(FramesOf(items)) == Flatten(items) && AllWf(FramesOf(items))
  {
    if items != [] {
      FramesOnTheWire(items[1..]);
      assert FramesOf(items)[1..] == FramesOf(items[1..]);
      assert WholeFrame(items[0].frame);
      forall i | 0 <= i < |items| ensures FramesOf(items)[i].Wf() { assert WholeFrame(items[i].frame); }
    }
  }

  /** What a source's handler asks to relay is framed, whatever the source writes. */
  lemma ScriptIsFramed(s: Ferry, x: Conn, i: nat)
    requires Scripted(s, x) && i < |x.script| && x.script[i].Relayed?
    ensures Framed(x.script[i], x.peer) && WholeFrame(x.script[i].frame)
  {
    HandledIsFramed(x.client.input, s.token, s.strict, x.client.challenge.Some?, Verifier(x.client.challenge));
    assert x.script[i] in x.script;
  }

  lemma SentIsFramed(t: Ferry, d: nat, item: Item)
    requires AllScripted(t) && d < |t.conns| && Genuine(t, d, item)
    ensures WholeFrame(item.frame) && Framed(Relayed(t.conns[d].peer, item.frame), t.conns[item.src].peer)
  {
    ScriptIsFramed(t, t.conns[item.src], item.idx);
  }

  /** End to end, from the sources' bytes to what a destination's client hands up, over every run and
      whatever any of them writes: the client gets exactly what the server's greeting and the frames
      written whole yield, in order; each of those is one its source's bytes ask to relay to this peer,
      and a Forward one carries the identity that source registered with. */
  lemma {:induction false} EndToEnd(s: Ferry, steps: seq<Step>, t: Ferry, d: nat, bufLen: nat)
    requires Init(s) && Run(s, steps, t) && d < |t.conns|
    ensures var x := t.conns[d];
            && Scripted(t, x)
            && Receive(x.wire, bufLen) == EventsOf(Greetings(t.token, x.client) + FramesOf(x.sent), bufLen)
            && InOrder(x.sent)
    ensures forall item :: item in t.conns[d].sent ==>
              && item.src < |t.conns| && Scripted(t, t.conns[item.src])
              && var y := t.conns[item.src];
              && item.idx < |y.script| && y.script[item.idx] == Relayed(t.conns[d].peer, item.frame)
              && FrameOf(item.frame) == Outgoing(Original(y.script[item.idx]), y.peer)
  {
    DeliverySafety(s, steps, t, d);
    RunKeeps(s, steps, t);
    RunKeepsScripts(s, steps, t);
    var x := t.conns[d];
    assert LocalOk(t, d) && PipeOk(t, d) && Scripted(t, x);
    forall item | item in x.sent
      ensures WholeFrame(item.frame) && Framed(Relayed(x.peer, item.frame), t.conns[item.src].peer)
    {
      assert item in Pipe(x);
      SentIsFramed(t, d, item);
    }
    WireIsReceived(t, d, bufLen);
  }

  lemma WireIsReceived(t: Ferry, d: nat, bufLen: nat)
    requires d < |t.conns| && AllScripted(t) && LocalOk(t, d) && Scripted(t, t.conns[d])
    requires forall item :: item in t.conns[d].sent ==> WholeFrame(item.frame)
    ensures var x := t.conns[d];
            Receive(x.wire, bufLen) == EventsOf(Greetings(t.token, x.client) + FramesOf(x.sent), bufLen)
  {
    var x := t.conns[d];
    var hello, fs := Greetings(t.token, x.client), FramesOf(x.sent);
    FramesOnTheWire(x.sent);
    ConcatAppend(hello, fs);
    var cut := CutOf(t, d);
    ReceiveFrames(hello + fs, TailBytes(x.tail), cut, bufLen);
  }

  lemma CutOf(t: Ferry, d: nat) returns (f: Frame)
    requires d < |t.conns| && AllScripted(t) && LocalOk(t, d)
    ensures CutFrame(TailBytes(t.conns[d].tail), f)
  {
    var x := t.conns[d];
    if x.tail.Clean? {
      f := Frame(Header(0, 0, 0, 0, 0), []);
    } else {
      SentIsFramed(t, d, x.tail.item);
      f := FrameOf(x.tail.item.frame);
    }
  }

  lemma GreetingBytes(token: seq<byte>, c: Client)
    requires c.challenge.Some? && |c.challenge.value.key| == 32 && Accepted(c.input, token)
    ensures Concat(Greetings(token, c)) == Frame(Header(0, 32, 5, 0, 0), c.challenge.value.key).Wire()
  {
    var f := Frame(Header(0, 32, AUTH_CHALLENGE, 0, 0), c.challenge.value.key);
    assert Concat([f]) == f.Wire() + Concat([]);
  }

  /** Server to client, before anything else: over every run, a challenged client whose handler did anything finds
      its challenge at the front of its stream, whole, and goes on behind it; an unchallenged one finds none. */
  lemma {:induction false} ChallengeComesFirst(s: Ferry, steps: seq<Step>, t: Ferry, d: nat, arrived: nat)
    requires Init(s) && Run(s, steps, t) && d < |t.conns| && t.conns[d].script != [] && arrived >= 44
    ensures var x := t.conns[d];
            && (x.client.challenge.Some? ==>
                  |x.wire| >= 44
                  && ExchangeStep(x.wire, arrived) == Exchanged(x.wire[44..], true, Some(x.client.challenge.value.key)))
            && (x.client.challenge.None? ==> x.wire == Flatten(x.sent) + TailBytes(x.tail))
  {
    RunKeeps(s, steps, t);
    RunKeepsScripts(s, steps, t);
    var x := t.conns[d];
    assert LocalOk(t, d) && Scripted(t, x);
    BehindGreeting(t, x, arrived);
  }

  /** A handler that did anything had accepted the registration, and sent the challenge if there was one. */
  lemma GreetingOf(t: Ferry, x: Conn)
    requires Scripted(t, x) && x.script != []
    ensures x.client.challenge.Some? ==>
              |x.client.challenge.value.key| == 32
              && x.greeting == Frame(Header(0, 32, 5, 0, 0), x.client.challenge.value.key).Wire()
    ensures x.client.challenge.None? ==> x.greeting == []
  {
    if x.client.challenge.Some? { GreetingBytes(t.token, x.client); }
  }

  lemma WireBehind(greeting: seq<byte>, sent: seq<byte>, tail: seq<byte>)
    ensures greeting + sent + tail == greeting + (sent + tail)
    ensures greeting == [] ==> greeting + sent + tail == sent + tail
  {}

  lemma BehindGreeting(t: Ferry, x: Conn, arrived: nat)
    requires WireOk(x) && Scripted(t, x) && x.script != [] && arrived >= 44
    ensures x.client.challenge.Some? ==>
              |x.wire| >= 44
              && ExchangeStep(x.wire, arrived) == Exchanged(x.wire[44..], true, Some(x.client.challenge.value.key))
    ensures x.client.challenge.None? ==> x.wire == Flatten(x.sent) + TailBytes(x.tail)
  {
    var sent, tail := Flatten(x.sent), TailBytes(x.tail);
    GreetingOf(t, x);
    WireBehind(x.greeting, sent, tail);
    if x.client.challenge.Some? { BehindChallenge(x.client.challenge.value.key, sent + tail, arrived); }
  }

  lemma BehindChallenge(key: seq<byte>, rest: seq<byte>, arrived: nat)
    requires |key| == 32 && arrived >= 44
    ensures var wire := Frame(Header(0, 32, 5, 0, 0), key).Wire() + rest;
            |wire| >= 44 && ExchangeStep(wire, arrived) == Exchanged(wire[44..], true, Some(key))
  {
    var wire := Frame(Header(0, 32, 5, 0, 0), key).Wire() + rest;
    ExchangeThenReceive(key, rest, arrived, 0);
    assert wire[44..] == rest;
  }

  /** `frame` is relayed frame number `k` of `fs`, as passed on under `from`, and was addressed to `to`. */
  predicate IsRelaying(fs: seq<Frame>, k: int, from: uint32, to: uint32, frame: seq<byte>) {
    0 <= k < |Relaying(fs)| && Relaying(fs)[k].h.toId == to && frame == Outgoing(Relaying(fs)[k], from).Wire()
  }

  predicate NoneRelayed(actions: seq<Action>) {
    forall i :: 0 <= i < |actions| ==> !actions[i].Relayed?
  }

  /** For a source that writes frames the loop consumes whole, keep-alives and all: every frame of its that
      reaches a destination is the one with that number among those it addressed to anybody, and it was
      addressed to this peer. `before` is what registering comes to. */
  lemma {:induction false} FromFrames(s: Ferry, steps: seq<Step>, t: Ferry, d: nat, item: Item,
                   p: Peer, before: seq<Action>, fs: seq<Frame>)
    requires Init(s) && Run(s, steps, t) && d < |t.conns| && item in t.conns[d].sent
    requires item.src < |t.conns| && t.conns[item.src].script == before + RelaysOf(p, fs)
    requires p.from == t.conns[item.src].peer && NoneRelayed(before)
    ensures IsRelaying(fs, item.idx - |before|, p.from, t.conns[d].peer, item.frame)
  {
    var script, to := t.conns[item.src].script, t.conns[d].peer;
    assert item.idx < |script| && script[item.idx] == Relayed(to, item.frame) by { SentIsAsked(s, steps, t, d, item); }
    ScriptedFrame(script, p, before, fs, item.idx, to, item.frame);
  }

  lemma {:induction false} SentIsAsked(s: Ferry, steps: seq<Step>, t: Ferry, d: nat, item: Item)
    requires Init(s) && Run(s, steps, t) && d < |t.conns| && item in t.conns[d].sent
    ensures item.src < |t.conns| && item.idx < |t.conns[item.src].script|
    ensures t.conns[item.src].script[item.idx] == Relayed(t.conns[d].peer, item.frame)
  {
    DeliverySafety(s, steps, t, d);
  }

  lemma {:induction false} ScriptedFrame(script: seq<Action>, p: Peer, before: seq<Action>, fs: seq<Frame>, i: nat, to: uint32, frame: seq<byte>)
    requires script == before + RelaysOf(p, fs) && i < |script| && script[i] == Relayed(to, frame)
    requires NoneRelayed(before)
    ensures IsRelaying(fs, i - |before|, p.from, to, frame)
  {
    RelaysOfFrames(p, fs);
  }
}
