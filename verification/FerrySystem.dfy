/** The relay as a whole over TCP: session handlers, the session table and the sessions' writers,
    interleaved at every point where they share state. */
module FerrySystem {
  import opened Types
  import opened RelayProtocol
  import opened RelaySession
  import opened RelayStreams

  /** A challenge the server got out, and the proofs that answer it. */
  datatype Challenge = Challenge(key: seq<byte>, proofs: set<seq<byte>>)

  /** What the other end of a connection writes on it, and how the server challenges it, if it does. */
  datatype Client = Client(input: seq<byte>, challenge: Option<Challenge>)

  function Verifier(challenge: Option<Challenge>): seq<byte> -> bool {
    (proof: seq<byte>) => challenge.Some? && proof in challenge.value.proofs
  }

  /** Everything the handler of a connection does, in order. */
  function Script(token: seq<byte>, strict: bool, c: Client): seq<Action> {
    Handled(c.input, token, strict, c.challenge.Some?, Verifier(c.challenge))
  }

  /** What the server writes on a connection by itself. */
  function Greetings(token: seq<byte>, c: Client): (fs: seq<Frame>)
    requires c.challenge.Some? ==> |c.challenge.value.key| == 32
    ensures AllWf(fs)
  {
    if Accepted(c.input, token) && c.challenge.Some?
    then [Frame(Header(0, 32, AUTH_CHALLENGE, 0, 0), c.challenge.value.key)] else []
  }

  /** A relayed frame, with the connection it came from and its place in that one's script. */
  datatype Item = Item(src: nat, idx: nat, frame: seq<byte>)

  /** A handler between frames, or holding the session it looked up for its next frame. */
  datatype Handler = Serving | Holding(dst: nat) | Finished

  /** How a stream ends: at a frame, or inside one. */
  datatype Tail = Clean | Cut(item: Item, bytes: nat)

  /** `script` is what the handler will do, `pos` how much of it is done; `sent` is what the writer wrote
      whole, `left` that the session emptied its own slot. */
  datatype Conn = Conn(
    client: Client, peer: uint32, script: seq<Action>, pos: nat, handler: Handler, registered: bool, verified: bool, left: bool,
    fwd: Forward<Item>, greeting: seq<byte>, wire: seq<byte>, sent: seq<Item>, tail: Tail)

  /** `latest` is history: the connection that registered last for each peer. */
  datatype Ferry = Ferry(
    token: seq<byte>, strict: bool, conns: seq<Conn>, slots: map<uint32, nat>, owed: set<nat>, latest: map<uint32, nat>)

  datatype Step =
    | Connect(client: Client)
    | Register(c: nat)
    | MarkVerified(c: nat)
    | Lookup(c: nat)
    | Enqueue(c: nat, accept: bool)
    | WriterTakes(c: nat)
    | WriterQuits(c: nat)
    | WriteDone(c: nat)
    | WriteFails(c: nat, bytes: nat)
    | ShutDown(c: nat)
    | Leave(c: nat)

  predicate Owns(s: Ferry, c: nat)
    requires c < |s.conns|
  {
    s.conns[c].peer in s.slots && s.slots[s.conns[c].peer] == c
  }

  predicate Reachable(s: Ferry, d: nat)
    requires d < |s.conns|
  {
    s.strict ==> s.conns[d].verified
  }

  predicate Enabled(s: Ferry, step: Step) {
    if step.Connect? then step.client.challenge.Some? ==> |step.client.challenge.value.key| == 32
    else if step.c >= |s.conns| then false
    else
      var c := s.conns[step.c];
      match step
      case Register(_) => c.handler.Serving? && c.pos < |c.script| && c.script[c.pos].Registered? && !c.registered
      case MarkVerified(_) => c.handler.Serving? && c.pos < |c.script| && c.script[c.pos].Upgraded?
      case Lookup(_) => c.handler.Serving? && c.pos < |c.script| && c.script[c.pos].Relayed?
      case Enqueue(_, accept) =>
        && c.handler.Holding? && c.handler.dst < |s.conns| && c.pos < |c.script| && c.script[c.pos].Relayed?
        && var d := c.handler.dst;
        if Reachable(s, d) then (if accept then MayAccept(s.conns[d].fwd) else MayDrop(s.conns[d].fwd)) else !accept
      case WriterTakes(_) => c.fwd.writer.Waiting? && c.fwd.queue != []
      case WriterQuits(_) => c.fwd.writer.Waiting? && c.fwd.done
      case WriteDone(_) => c.fwd.writer.Writing? && !c.fwd.closed
      case WriteFails(_, bytes) => c.fwd.writer.Writing? && bytes < |c.fwd.writer.item.frame|
      case ShutDown(_) => step.c in s.owed
      case Leave(_) => c.handler.Serving?
  }

  function Put(s: Ferry, c: nat, x: Conn): Ferry
    requires c < |s.conns|
  {
    s.(conns := s.conns[c := x])
  }

  /** The destination's side of a hand-over. */
  function Queued(s: Ferry, c: nat, accept: bool): Ferry
    requires Enabled(s, Enqueue(c, accept))
  {
    var x := s.conns[c];
    var d := x.handler.dst;
    if Reachable(s, d)
    then Put(s, d, s.conns[d].(fwd := Enqueued(s.conns[d].fwd, Item(c, x.pos, x.script[x.pos].frame), accept)))
    else s
  }

  function Delivered(s: Ferry, c: nat, accept: bool): Ferry
    requires Enabled(s, Enqueue(c, accept))
  {
    var t := Queued(s, c, accept);
    Put(t, c, t.conns[c].(handler := Serving, pos := s.conns[c].pos + 1))
  }

  function Connected(s: Ferry, c: Client): Conn
    requires Enabled(s, Connect(c))
  {
    var greeting := Concat(Greetings(s.token, c));
    Conn(c, PeerOf(c.input), Script(s.token, s.strict, c), 0, Serving, false, false, false,
         Fresh(), greeting, greeting, [], Clean)
  }

  /** The connection a step is about, after it. */
  function NextConn(s: Ferry, step: Step): Conn
    requires Enabled(s, step) && !step.Connect? && !step.Enqueue?
  {
    var x := s.conns[step.c];
    match step
    case Register(_) => x.(registered := true, verified := x.script[x.pos].verified || x.verified, pos := x.pos + 1)
    case MarkVerified(c) => x.(verified := Owns(s, c) || x.verified, pos := x.pos + 1)
    case Lookup(_) =>
      var to := x.script[x.pos].to;
      if to in s.slots then x.(handler := Holding(s.slots[to])) else x.(pos := x.pos + 1)
    case WriterTakes(_) => x.(fwd := x.fwd.(queue := x.fwd.queue[1..], writer := Writing(x.fwd.queue[0])))
    case WriterQuits(_) => x.(fwd := x.fwd.(writer := Exited))
    case WriteDone(_) =>
      var item := x.fwd.writer.item;
      x.(fwd := x.fwd.(writer := Waiting), wire := x.wire + item.frame, sent := x.sent + [item])
    case WriteFails(_, bytes) =>
      var item := x.fwd.writer.item;
      x.(fwd := Shutdown(x.fwd).(writer := Exited), wire := x.wire + item.frame[..bytes], tail := Cut(item, bytes))
    case ShutDown(_) => x.(fwd := Shutdown(x.fwd))
    case Leave(c) =>
      if Owns(s, c) then x.(handler := Finished, left := true, fwd := Shutdown(x.fwd))
      else x.(handler := Finished, fwd := x.fwd.(closed := true))
  }

  function NextSlots(s: Ferry, step: Step): map<uint32, nat>
    requires Enabled(s, step) && !step.Connect?
  {
    var p := s.conns[step.c].peer;
    if step.Register? then s.slots[p := step.c]
    else if step.Leave? && Owns(s, step.c) then s.slots - {p}
    else s.slots
  }

  function NextOwed(s: Ferry, step: Step): set<nat>
    requires Enabled(s, step) && !step.Connect?
  {
    var p := s.conns[step.c].peer;
    if step.Register? && p in s.slots then s.owed + {s.slots[p]}
    else if step.ShutDown? then s.owed - {step.c}
    else s.owed
  }

  function Apply(s: Ferry, step: Step): Ferry
    requires Enabled(s, step)
  {
    if step.Connect? then s.(conns := s.conns + [Connected(s, step.client)])
    else if step.Enqueue? then Delivered(s, step.c, step.accept)
    else
      Put(s, step.c, NextConn(s, step))
        .(slots := NextSlots(s, step), owed := NextOwed(s, step),
          latest := if step.Register? then s.latest[s.conns[step.c].peer := step.c] else s.latest)
  }

  predicate Run(s: Ferry, steps: seq<Step>, t: Ferry)
    decreases |steps|
  {
    if steps == [] then s == t
    else Enabled(s, steps[0]) && Run(Apply(s, steps[0]), steps[1..], t)
  }

  // ----- The session table

  predicate SlotsOk(s: Ferry) {
    && (forall p :: p in s.latest ==> s.latest[p] < |s.conns|)
    && (forall p :: p in s.slots ==>
          p in s.latest && s.latest[p] == s.slots[p]
          && s.conns[s.slots[p]].peer == p && s.conns[s.slots[p]].registered && !s.conns[s.slots[p]].left)
    && (forall p :: p in s.latest && p !in s.slots ==> s.conns[s.latest[p]].left)
    && (forall c :: 0 <= c < |s.conns| && s.conns[c].left ==> s.conns[c].handler.Finished?)
  }

  predicate Displaced(s: Ferry) {
    forall c :: 0 <= c < |s.conns| && s.conns[c].registered ==>
      Owns(s, c) || s.conns[c].fwd.once || c in s.owed
  }

  predicate ForwardsOk(s: Ferry) {
    forall c :: 0 <= c < |s.conns| ==> Wf(s.conns[c].fwd)
  }

  predicate TableInv(s: Ferry) {
    SlotsOk(s) && Displaced(s) && ForwardsOk(s)
  }

  /** A step that leaves the table, and each session's part in it, alone. */
  predicate SameTable(s: Ferry, t: Ferry) {
    && t.slots == s.slots && t.latest == s.latest && t.owed == s.owed && |t.conns| == |s.conns|
    && forall c :: 0 <= c < |s.conns| ==> SameSeat(s.conns[c], t.conns[c])
  }

  predicate SameSeat(x: Conn, y: Conn) {
    && y.peer == x.peer && y.registered == x.registered && y.left == x.left
    && (x.handler.Finished? ==> y.handler.Finished?) && (x.fwd.once ==> y.fwd.once)
    && (Wf(x.fwd) ==> Wf(y.fwd))
  }

  lemma SameTableKeeps(s: Ferry, t: Ferry)
    requires TableInv(s) && SameTable(s, t)
    ensures TableInv(t)
  {
    forall c | 0 <= c < |t.conns| ensures SameSeat(s.conns[c], t.conns[c]) {}
    forall p | p in t.slots ensures SameSeat(s.conns[s.slots[p]], t.conns[s.slots[p]]) {}
  }

  predicate TouchesTable(step: Step) {
    step.Connect? || step.Register? || step.ShutDown? || step.Leave?
  }

  lemma PutSeat(s: Ferry, c: nat, x: Conn)
    requires c < |s.conns| && SameSeat(s.conns[c], x)
    ensures SameTable(s, Put(s, c, x))
  {}

  lemma SameTableTrans(s: Ferry, t: Ferry, u: Ferry)
    requires SameTable(s, t) && SameTable(t, u)
    ensures SameTable(s, u)
  {
    forall c | 0 <= c < |s.conns| ensures SameSeat(s.conns[c], u.conns[c]) {
      assert SameSeat(s.conns[c], t.conns[c]) && SameSeat(t.conns[c], u.conns[c]);
    }
  }

  lemma QueuedQuiet(s: Ferry, c: nat, accept: bool)
    requires Enabled(s, Enqueue(c, accept))
    ensures SameTable(s, Queued(s, c, accept))
  {
    var d := s.conns[c].handler.dst;
    if Reachable(s, d) {
      PutSeat(s, d, Queued(s, c, accept).conns[d]);
    }
  }

  lemma EnqueueQuiet(s: Ferry, c: nat, accept: bool)
    requires Enabled(s, Enqueue(c, accept))
    ensures SameTable(s, Delivered(s, c, accept))
  {
    var t := Queued(s, c, accept);
    QueuedQuiet(s, c, accept);
    PutSeat(t, c, t.conns[c].(handler := Serving, pos := s.conns[c].pos + 1));
    SameTableTrans(s, t, Delivered(s, c, accept));
  }

  lemma QuietSteps(s: Ferry, step: Step)
    requires TableInv(s) && Enabled(s, step) && !TouchesTable(step)
    ensures SameTable(s, Apply(s, step))
  {
    if step.Enqueue? {
      EnqueueQuiet(s, step.c, step.accept);
    } else {
      var t := Apply(s, step);
      assert Wf(s.conns[step.c].fwd);
      if step.WriteFails? { ShutdownOnce(s.conns[step.c].fwd); }
      assert SameSeat(s.conns[step.c], t.conns[step.c]);
      PutSeat(s, step.c, t.conns[step.c]);
      assert t == Put(s, step.c, t.conns[step.c]);
    }
  }

  lemma ConnectKeepsTable(s: Ferry, step: Step)
    requires TableInv(s) && step.Connect? && Enabled(s, step)
    ensures TableInv(Apply(s, step))
  {
    var t := Apply(s, step);
    forall c | 0 <= c < |s.conns| ensures t.conns[c] == s.conns[c] {}
  }

  lemma RegisterKeepsTable(s: Ferry, step: Step)
    requires TableInv(s) && Enabled(s, step) && step.Register?
    ensures TableInv(Apply(s, step))
  {
    var t := Apply(s, step);
    assert t.conns == s.conns[step.c := NextConn(s, step)];
    RegisterSlots(s, step.c, NextConn(s, step), t);
    RegisterDisplaces(s, step.c, NextConn(s, step), t);
  }

  /** `c` took its peer's slot and became `y`; whoever had the slot is owed a shutdown. */
  predicate TakesSlot(s: Ferry, c: nat, y: Conn, t: Ferry) {
    && c < |s.conns| && t.conns == s.conns[c := y] && y.peer == s.conns[c].peer && y.registered
    && y.left == s.conns[c].left && y.handler == s.conns[c].handler && y.handler.Serving? && y.fwd == s.conns[c].fwd
    && t.slots == s.slots[y.peer := c] && t.latest == s.latest[y.peer := c]
    && s.owed <= t.owed && (y.peer in s.slots ==> s.slots[y.peer] in t.owed)
  }

  lemma RegisterSlots(s: Ferry, c: nat, y: Conn, t: Ferry)
    requires SlotsOk(s) && TakesSlot(s, c, y, t)
    ensures SlotsOk(t)
  {}

  lemma RegisterDisplaces(s: Ferry, c: nat, y: Conn, t: Ferry)
    requires Displaced(s) && TakesSlot(s, c, y, t)
    ensures Displaced(t)
  {
    forall d | 0 <= d < |t.conns| && t.conns[d].registered
      ensures Owns(t, d) || t.conns[d].fwd.once || d in t.owed
    {
      if d != c { assert Owns(s, d) || s.conns[d].fwd.once || d in s.owed; }
    }
  }

  lemma ShutDownKeepsTable(s: Ferry, step: Step)
    requires TableInv(s) && Enabled(s, step) && step.ShutDown?
    ensures TableInv(Apply(s, step))
  {
    ShutdownOnce(s.conns[step.c].fwd);
  }

  lemma LeaveKeepsTable(s: Ferry, step: Step)
    requires TableInv(s) && Enabled(s, step) && step.Leave?
    ensures TableInv(Apply(s, step))
  {
    var x, t := s.conns[step.c], Apply(s, step);
    assert Wf(x.fwd);
    if Owns(s, step.c) {
      ShutdownOnce(x.fwd);
      OwnerLeaves(s, step.c, t.conns[step.c]);
    } else {
      PutSeat(s, step.c, t.conns[step.c]);
      SameTableKeeps(s, t);
    }
  }

  lemma OwnerLeaves(s: Ferry, c: nat, y: Conn)
    requires TableInv(s) && c < |s.conns| && Owns(s, c)
    requires y.peer == s.conns[c].peer && y.left && y.handler.Finished? && y.fwd.once && Wf(y.fwd)
    ensures TableInv(Put(s, c, y).(slots := s.slots - {y.peer}))
  {
    var t := Put(s, c, y).(slots := s.slots - {y.peer});
    VacatedSlots(s, c, y, t);
    VacatedDisplaced(s, c, y, t);
  }

  /** `c`, the owner of its slot, became `y` and the slot was emptied. */
  predicate Vacates(s: Ferry, c: nat, y: Conn, t: Ferry) {
    && c < |s.conns| && Owns(s, c) && y.peer == s.conns[c].peer && y.left && y.handler.Finished? && y.fwd.once
    && t.conns == s.conns[c := y] && t.slots == s.slots - {y.peer} && t.latest == s.latest && t.owed == s.owed
  }

  lemma VacatedSlots(s: Ferry, c: nat, y: Conn, t: Ferry)
    requires SlotsOk(s) && Vacates(s, c, y, t)
    ensures SlotsOk(t)
  {
    forall p | p in t.slots ensures s.slots[p] != c { assert s.conns[s.slots[p]].peer == p; }
  }

  lemma VacatedDisplaced(s: Ferry, c: nat, y: Conn, t: Ferry)
    requires Displaced(s) && Vacates(s, c, y, t)
    ensures Displaced(t)
  {
    forall d | 0 <= d < |t.conns| && t.conns[d].registered
      ensures Owns(t, d) || t.conns[d].fwd.once || d in t.owed
    {
      if d != c { assert Owns(s, d) || s.conns[d].fwd.once || d in s.owed; }
    }
  }

  lemma TableKept(s: Ferry, step: Step)
    requires TableInv(s) && Enabled(s, step)
    ensures TableInv(Apply(s, step))
  {
    match step
    case Connect(_) => ConnectKeepsTable(s, step);
    case Register(_) => RegisterKeepsTable(s, step);
    case ShutDown(_) => ShutDownKeepsTable(s, step);
    case Leave(_) => LeaveKeepsTable(s, step);
    case _ =>
      QuietSteps(s, step);
      SameTableKeeps(s, Apply(s, step));
  }

  /** A displaced session's late cleanup or proof changes neither the table nor any other session. */
  lemma LateActsAreNoOps(s: Ferry, c: nat)
    requires c < |s.conns| && !Owns(s, c)
    ensures Enabled(s, MarkVerified(c)) ==> Apply(s, MarkVerified(c)) == Put(s, c, s.conns[c].(pos := s.conns[c].pos + 1))
    ensures Enabled(s, Leave(c)) ==>
              var t := Apply(s, Leave(c));
              && t.slots == s.slots && t.owed == s.owed && |t.conns| == |s.conns|
              && forall d :: 0 <= d < |s.conns| && d != c ==> t.conns[d] == s.conns[d]
  {}

  // ----- What becomes of a session that was shut down

  predicate MovesWriter(step: Step, c: nat) {
    (step.WriterTakes? || step.WriterQuits? || step.WriteDone? || step.WriteFails?) && step.c == c
  }

  function WriterLeft(x: Conn): nat {
    match x.fwd.writer
    case NotStarted => 3
    case Waiting => 2
    case Writing(_) => 1
    case Exited => 0
  }

  predicate Ending(x: Conn, y: Conn, moved: bool) {
    && y.fwd.once && y.sent == x.sent && WriterLeft(y) <= WriterLeft(x)
    && (moved ==> WriterLeft(y) < WriterLeft(x))
  }

  lemma EnqueueOnClosed(s: Ferry, c: nat, accept: bool, d: nat)
    requires Enabled(s, Enqueue(c, accept)) && d < |s.conns| && s.conns[d].fwd.once
    ensures Ending(s.conns[d], Queued(s, c, accept).conns[d], false)
    ensures Ending(s.conns[d], Delivered(s, c, accept).conns[d], false)
  {
    DeliveredFrom(s, c, accept, d);
  }

  /** Beyond queueing, a hand-over only moves the handler on. */
  lemma DeliveredFrom(s: Ferry, c: nat, accept: bool, d: nat)
    requires Enabled(s, Enqueue(c, accept)) && d < |s.conns|
    ensures var x, y := Queued(s, c, accept).conns[d], Delivered(s, c, accept).conns[d];
            |Delivered(s, c, accept).conns| == |s.conns| && y == x.(handler := y.handler, pos := y.pos)
  {}

  lemma OwnStepOnClosed(s: Ferry, step: Step)
    requires Enabled(s, step) && !step.Connect? && !step.Enqueue?
    requires s.conns[step.c].fwd.once && Wf(s.conns[step.c].fwd)
    ensures Ending(s.conns[step.c], Apply(s, step).conns[step.c], MovesWriter(step, step.c))
  {}

  lemma OthersUntouched(s: Ferry, step: Step, c: nat)
    requires Enabled(s, step) && !step.Enqueue? && c < |s.conns| && (step.Connect? || step.c != c)
    ensures c < |Apply(s, step).conns| && Apply(s, step).conns[c] == s.conns[c]
  {}

  /** Its writer, even one started by a late frame, writes no further frame whole and has at most two
      steps left, whoever else moves. */
  lemma ClosedWriterEnds(s: Ferry, step: Step, c: nat)
    requires TableInv(s) && Enabled(s, step) && c < |s.conns| && s.conns[c].fwd.once
    ensures c < |Apply(s, step).conns|
    ensures Ending(s.conns[c], Apply(s, step).conns[c], MovesWriter(step, c))
  {
    if step.Enqueue? {
      EnqueueOnClosed(s, step.c, step.accept, c);
    } else if step.Connect? || step.c != c {
      OthersUntouched(s, step, c);
    } else {
      OwnStepOnClosed(s, step);
    }
  }

  /** It never waits for a frame that cannot come, nor on a write that cannot end. */
  lemma ClosedWriterNeverWaits(s: Ferry, c: nat)
    requires TableInv(s) && c < |s.conns| && s.conns[c].fwd.once
    ensures s.conns[c].fwd.writer.Waiting? ==> Enabled(s, WriterTakes(c)) || Enabled(s, WriterQuits(c))
    ensures s.conns[c].fwd.writer.Writing? && s.conns[c].fwd.writer.item.frame != [] ==> Enabled(s, WriteFails(c, 0))
  {
    assert Wf(s.conns[c].fwd);
  }

  /** Over any run, nothing is delivered on a stream once its session has been shut down. */
  lemma {:induction false} NothingAfterShutdown(s: Ferry, steps: seq<Step>, t: Ferry, c: nat)
    requires TableInv(s) && Run(s, steps, t) && c < |s.conns| && s.conns[c].fwd.once
    ensures c < |t.conns| && t.conns[c].fwd.once && t.conns[c].sent == s.conns[c].sent
    decreases |steps|
  {
    if steps != [] {
      ClosedWriterEnds(s, steps[0], c);
      TableKept(s, steps[0]);
      NothingAfterShutdown(Apply(s, steps[0]), steps[1..], t, c);
    }
  }

  // ----- Frames handed to a session that was shut down

  /** A handler about to hand a frame to a session that was shut down after it looked it up. */
  predicate HoldsClosed(s: Ferry, c: nat) {
    && c < |s.conns| && s.conns[c].handler.Holding? && s.conns[c].pos < |s.conns[c].script|
    && s.conns[c].script[s.conns[c].pos].Relayed?
    && var d := s.conns[c].handler.dst;
    d < |s.conns| && Reachable(s, d) && s.conns[d].fwd.once
  }

  /** Shutting down does not refuse frames: one may still be accepted exactly while the queue has room. */
  lemma AcceptedAfterShutdown(s: Ferry, c: nat)
    requires HoldsClosed(s, c)
    ensures var d := s.conns[c].handler.dst;
            Enabled(s, Enqueue(c, true)) <==> |s.conns[d].fwd.queue| < 256
  {}

  /** Two peers without challenge: `a` asks to relay one frame to `b`, which says nothing after registering. */
  predicate Talking(a: Client, b: Client) {
    && a.challenge.None? && b.challenge.None? && PeerOf(a.input) != PeerOf(b.input)
    && Script([], false, b) == [Registered(false)]
    && var script := Script([], false, a);
    && |script| == 2 && script[0] == Registered(false) && script[1].Relayed? && script[1].to == PeerOf(b.input)
  }

  const EMPTY := Ferry([], false, [], map[], {}, map[])

  lemma {:induction false} RunAppend(s: Ferry, steps: seq<Step>, t: Ferry, step: Step)
    requires Run(s, steps, t) && Enabled(t, step)
    ensures Run(s, steps + [step], Apply(t, step))
    decreases |steps|
  {
    if steps == [] {
      assert [step][1..] == [];
    } else {
      assert (steps + [step])[1..] == steps[1..] + [step];
      RunAppend(Apply(s, steps[0]), steps[1..], t, step);
    }
  }

  lemma BothRegister(a: Client, b: Client) returns (steps: seq<Step>, t: Ferry)
    requires Talking(a, b)
    ensures Run(EMPTY, steps, t) && !t.strict && |t.conns| == 2 && Owns(t, 1)
    ensures t.conns[0].handler.Serving? && t.conns[0].pos == 1 && t.conns[0].script == Script([], false, a)
    ensures t.conns[1].handler.Serving? && t.conns[1].peer == PeerOf(b.input) && t.conns[1].fwd == Fresh()
  {
    steps, t := [], EMPTY;
    RunAppend(EMPTY, steps, t, Connect(a));
    steps, t := steps + [Connect(a)], Apply(t, Connect(a));
    RunAppend(EMPTY, steps, t, Connect(b));
    steps, t := steps + [Connect(b)], Apply(t, Connect(b));
    assert t.conns == [Connected(EMPTY, a), Connected(EMPTY, b)];
    RunAppend(EMPTY, steps, t, Register(0));
    steps, t := steps + [Register(0)], Apply(t, Register(0));
    RunAppend(EMPTY, steps, t, Register(1));
    steps, t := steps + [Register(1)], Apply(t, Register(1));
  }

  /** It happens: `a` looks `b` up, `b` leaves, and the frame `a` hands over is accepted. */
  lemma LateFrameIsAccepted(a: Client, b: Client) returns (steps: seq<Step>, t: Ferry)
    requires Talking(a, b)
    ensures Run(EMPTY, steps, t) && HoldsClosed(t, 0) && t.conns[0].handler.dst == 1
    ensures Enabled(t, Enqueue(0, true)) && |Apply(t, Enqueue(0, true)).conns[1].fwd.queue| == 1
  {
    steps, t := BothRegister(a, b);
    RunAppend(EMPTY, steps, t, Lookup(0));
    steps, t := steps + [Lookup(0)], Apply(t, Lookup(0));
    LeaveWhileHeld(t);
    RunAppend(EMPTY, steps, t, Leave(1));
    steps, t := steps + [Leave(1)], Apply(t, Leave(1));
  }

  lemma LeaveWhileHeld(t: Ferry)
    requires !t.strict && |t.conns| == 2 && Owns(t, 1) && t.conns[1].handler.Serving? && t.conns[1].fwd == Fresh()
    requires t.conns[0].handler == Holding(1) && t.conns[0].pos < |t.conns[0].script|
    requires t.conns[0].script[t.conns[0].pos].Relayed?
    ensures Enabled(t, Leave(1))
    ensures var u := Apply(t, Leave(1));
            && HoldsClosed(u, 0) && u.conns[0].handler.dst == 1
            && Enabled(u, Enqueue(0, true)) && |Apply(u, Enqueue(0, true)).conns[1].fwd.queue| == 1
  {}

  /** Such clients exist. */
  lemma SomeTalk() returns (a: Client, b: Client)
    ensures Talking(a, b)
  {
    var first, second := Frame(Header(1, 0, REGISTER, 1, 0), []), Frame(Header(1, 0, REGISTER, 2, 0), []);
    var f, nothing := Frame(Header(2, 0, FORWARD, 2, 0), []), Frame(Header(0, 0, KEEP_ALIVE, 0, 0), []);
    a := Client(first.Wire() + (Concat([f]) + []), None);
    b := Client(second.Wire() + (Concat([]) + []), None);
    HandledPlain(first, [f], [], nothing, [], false, Verifier(None));
    HandledPlain(second, [], [], nothing, [], false, Verifier(None));
    AfterRegistering(first, [], Concat([f]) + []);
    AfterRegistering(second, [], Concat([]) + []);
    RelaysOfFrames(Peer(1, false, Verifier(None)), [f]);
  }
}
