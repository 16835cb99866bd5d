/** The client's side of a relay connection: the send queue, its writer, and what the server makes of
    the bytes that reach it. */
module RelayClient {
  import opened Types
  import opened RelayProtocol
  import opened RelayStreams

  const SEND_DEPTH: nat := 4096

  /** The frame for `data`, its address and length truncated to 32 bits. */
  function MakeFrame(sn: uint16, to: nat, cmd: byte, data: seq<byte>): Frame {
    Frame(Header(sn, |data| % 0x1_0000_0000, cmd, to % 0x1_0000_0000, 0), data)
  }

  /** `wire` is what has been written on the current connection. */
  datatype Link = Link(up: bool, queue: seq<Frame>, wire: seq<byte>)

  function Sent(l: Link, f: Frame): Link {
    if l.up && |l.queue| < SEND_DEPTH then l.(queue := l.queue + [f]) else l
  }

  /** One round of the writer: the whole queue in one flush, or `bytes` of it and the connection is given
      up. A round without a connection only empties the queue. */
  function Flushed(l: Link, fails: bool, bytes: nat): Link {
    if !l.up then l.(queue := [])
    else if fails && bytes <= |Concat(l.queue)| then Link(false, [], l.wire + Concat(l.queue)[..bytes])
    else l.(queue := [], wire := l.wire + Concat(l.queue))
  }

  class TCPClient {
    var up: bool
    var seqNo: nat
    var sendCh: seq<Frame>
    var wire: seq<byte>

    ghost function View(): Link
      reads this
    {
      Link(up, sendCh, wire)
    }

    method Send(to: nat, cmd: byte, data: seq<byte>) returns (ok: bool)
      modifies this`sendCh, this`seqNo
      ensures View() == Sent(old(View()), MakeFrame((old(seqNo) + 1) % 0x1_0000, to, cmd, data))
      ensures ok <==> up && |old(sendCh)| < 4096
      ensures seqNo == old(seqNo) + if up then 1 else 0
    {
      if !up { return false; }
      seqNo := seqNo + 1;
      var frame := MakeFrame(seqNo % 0x1_0000, to, cmd, data);
      if |sendCh| >= SEND_DEPTH { return false; }
      sendCh := sendCh + [frame];
      return true;
    }

    /** Appends the frames to the write buffer and flushes it. */
    method FlushFrames(frames: seq<Frame>, fails: bool, bytes: nat) returns (ok: bool)
      requires fails ==> bytes <= |Concat(frames)|
      modifies this`wire
      ensures ok == !fails
      ensures wire == old(wire) + if fails then Concat(frames)[..bytes] else Concat(frames)
    {
      var buffer := [];
      for i := 0 to |frames|
        invariant buffer + Concat(frames[i..]) == Concat(frames)
      {
        assert frames[i..][1..] == frames[i+1..];
        assert buffer + (frames[i].Wire() + Concat(frames[i+1..])) == buffer + frames[i].Wire() + Concat(frames[i+1..]);
        buffer := buffer + frames[i].Wire();
      }
      assert buffer == Concat(frames);
      if fails {
        wire := wire + buffer[..bytes];
        return false;
      }
      wire := wire + buffer;
      return true;
    }

    method WriterRound(fails: bool, bytes: nat)
      requires fails ==> bytes <= |Concat(sendCh)|
      modifies this`up, this`sendCh, this`wire
      ensures View() == Flushed(old(View()), fails, bytes)
      ensures sendCh == [] && (up <==> old(up) && !fails)
    {
      var pending := sendCh;
      sendCh := [];
      if !up { return; }
      var ok := FlushFrames(pending, fails, bytes);
      if !ok { up := false; }
    }
  }

  // ----- One frame, from Send to the far end

  /** Command, address, length and data all reach the frame. */
  lemma SentFields(sn: uint16, to: nat, cmd: byte, data: seq<byte>)
    ensures var f := MakeFrame(sn, to, cmd, data);
            && f.h.sn == sn && f.h.cmd == cmd && f.h.reserved == 0 && f.payload == data
            && (to < 0x1_0000_0000 ==> f.h.toId == to) && (f.Wf() <==> |data| < 0x1_0000_0000)
  {}

  lemma ServedAlone(p: Peer, f: Frame)
    requires f.Wf() && Relays(f.h.cmd)
    ensures Serve(p, f.Wire(), false, true) == if Aligned(f) then RelayOf(p, f) else []
  {
    assert f.Wire() + [] == f.Wire();
    ServeFrame(p, f, []);
    assert Serve(p, [], false, true) == [];
  }

  lemma RelayOfOne(p: Peer, f: Frame)
    requires f.h.cmd == 2 || f.h.cmd == 4
    ensures var toId := if f.h.cmd == 2 then p.from else f.h.toId;
            RelayOf(p, f) == [Relayed(f.h.toId, f.(h := f.h.(toId := toId)).Wire())]
  {
    if f.h.cmd == 2 { StampedIsFrame(f, p.from); }
  }

  /** A lone packet or probe is relayed exactly when it is within the limit, to the peer it names: a packet with
      its sender's registered identity in place of the address, a probe as it is. */
  lemma RelayedAlone(p: Peer, f: Frame)
    requires f.Wf() && (f.h.cmd == 2 || f.h.cmd == 4)
    ensures |f.payload| > 65536 ==> Serve(p, f.Wire(), false, true) == []
    ensures |f.payload| <= 65536 ==>
              var toId := if f.h.cmd == 2 then p.from else f.h.toId;
              Serve(p, f.Wire(), false, true) == [Relayed(f.h.toId, f.(h := f.h.(toId := toId)).Wire())]
  {
    ServedAlone(p, f);
    RelayOfOne(p, f);
  }

  /** What the far end makes of a lone frame. */
  lemma ReceivedAlone(f: Frame, bufLen: nat)
    requires f.Wf()
    ensures f.h.cmd == 4 && |f.payload| <= 2048 ==> Receive(f.Wire(), bufLen) == [ProbeTask(f.h.toId, f.payload)]
    ensures f.h.cmd == 2 && |f.payload| <= bufLen ==> Receive(f.Wire(), bufLen) == [Packet(f.h.toId, f.payload)]
  {
    assert f.Wire() + [] == f.Wire();
    ReceiveOneFrame(f, [], bufLen);
    assert Receive([], bufLen) == [];
  }

  /** From one client to the other: a packet comes out with its data under its sender's registered identity. */
  lemma PacketArrives(p: Peer, f: Frame, bufLen: nat) returns (frame: seq<byte>)
    requires f.Wf() && f.h.cmd == 2 && |f.payload| <= 65536 && |f.payload| <= bufLen
    ensures Serve(p, f.Wire(), false, true) == [Relayed(f.h.toId, frame)]
    ensures Receive(frame, bufLen) == [Packet(p.from, f.payload)]
  {
    var out := f.(h := f.h.(toId := p.from));
    RelayedAlone(p, f);
    ReceivedAlone(out, bufLen);
    frame := out.Wire();
  }

  /** A probe comes out under the identity it was addressed to. */
  lemma ProbeArrives(p: Peer, f: Frame, bufLen: nat)
    requires f.Wf() && f.h.cmd == 4 && |f.payload| <= 2048
    ensures Serve(p, f.Wire(), false, true) == [Relayed(f.h.toId, f.Wire())]
    ensures Receive(f.Wire(), bufLen) == [ProbeTask(f.h.toId, f.payload)]
  {
    RelayedAlone(p, f);
    ReceivedAlone(f, bufLen);
  }

  // ----- Runs of one connection

  datatype Act = Send(f: Frame) | Round(fails: bool, bytes: nat)

  function Step(l: Link, act: Act): Link {
    match act
    case Send(f) => Sent(l, f)
    case Round(fails, bytes) => Flushed(l, fails, bytes)
  }

  function After(l: Link, acts: seq<Act>): Link
    decreases |acts|
  {
    if acts == [] then l else After(Step(l, acts[0]), acts[1..])
  }

  /** The frames the queue took, in order. */
  function Taken(l: Link, acts: seq<Act>): seq<Frame>
    decreases |acts|
  {
    if acts == [] then [] else
    (if acts[0].Send? && l.up && |l.queue| < SEND_DEPTH then [acts[0].f] else []) + Taken(Step(l, acts[0]), acts[1..])
  }

  lemma {:induction false} DownStaysDown(l: Link, acts: seq<Act>)
    requires !l.up
    ensures !After(l, acts).up && After(l, acts).wire == l.wire
    decreases |acts|
  {
    if acts != [] { DownStaysDown(Step(l, acts[0]), acts[1..]); }
  }

  lemma {:induction false} UpUnlessFailed(l: Link, acts: seq<Act>)
    requires l.up && forall i :: 0 <= i < |acts| && acts[i].Round? ==> !acts[i].fails
    ensures After(l, acts).up
    decreases |acts|
  {
    if acts != [] {
      assert acts[0].Round? ==> !acts[0].fails;
      UpUnlessFailed(Step(l, acts[0]), acts[1..]);
    }
  }

  /** All that is still to be written if nothing fails any more. */
  function Due(l: Link): seq<byte> {
    l.wire + Concat(l.queue)
  }

  lemma SendKeepsDue(l: Link, f: Frame)
    requires l.up
    ensures Due(Sent(l, f)) == Due(l) + if |l.queue| < SEND_DEPTH then f.Wire() else []
  {
    ConcatAppend(l.queue, [f]);
    assert Concat([f]) == f.Wire();
    Regroup(l.wire, Concat(l.queue), f.Wire());
  }

  lemma RoundKeepsDue(l: Link, fails: bool, bytes: nat)
    requires l.up
    ensures var m := Flushed(l, fails, bytes);
            (m.up ==> Due(m) == Due(l)) && (!m.up ==> m.wire <= Due(l))
  {
    assert Concat([]) == [];
    if bytes <= |Concat(l.queue)| { assert l.wire + Concat(l.queue)[..bytes] == Due(l)[..|l.wire| + bytes]; }
  }

  lemma StepKeepsDue(l: Link, act: Act)
    requires l.up
    ensures var m := Step(l, act);
            && (m.up ==> Due(m) == Due(l) + if act.Send? && |l.queue| < SEND_DEPTH then act.f.Wire() else [])
            && (!m.up ==> m.wire <= Due(l))
  {
    match act
    case Send(f) => SendKeepsDue(l, f);
    case Round(fails, bytes) => RoundKeepsDue(l, fails, bytes);
  }

  /** However sends and rounds interleave and whatever fails, the bytes on a connection are a prefix of
      the frames its queue took, whole and in order; nothing is missing while the connection is up. */
  lemma {:induction false} WireIsPrefix(l: Link, acts: seq<Act>)
    requires l.up
    ensures var m := After(l, acts);
            && m.wire <= Due(l) + Concat(Taken(l, acts))
            && (m.up ==> Due(m) == Due(l) + Concat(Taken(l, acts)))
    decreases |acts|
  {
    if acts != [] {
      var m, rest := Step(l, acts[0]), acts[1..];
      StepKeepsDue(l, acts[0]);
      var now := if acts[0].Send? && |l.queue| < SEND_DEPTH then [acts[0].f] else [];
      ConcatAppend(now, Taken(m, rest));
      if m.up {
        WireIsPrefix(m, rest);
        assert Concat(now) == if now == [] then [] else acts[0].f.Wire();
        Regroup(Due(l), Concat(now), Concat(Taken(m, rest)));
      } else {
        DownStaysDown(m, rest);
        PrefixGrows(m.wire, Due(l), Concat(Taken(l, acts)));
      }
    }
  }

  lemma Regroup(a: seq<byte>, b: seq<byte>, c: seq<byte>)
    ensures a + b + c == a + (b + c)
  {}

  lemma PrefixGrows(a: seq<byte>, b: seq<byte>, c: seq<byte>)
    requires a <= b
    ensures a <= b + c
  {}

  /** What the server relays of a cut stream of frames. */
  lemma ServePrefix(p: Peer, fs: seq<Frame>, bytes: seq<byte>)
    requires AllWf(fs) && (forall i :: 0 <= i < |fs| ==> Aligned(fs[i])) && bytes <= Concat(fs)
    ensures exists k :: 0 <= k <= |fs| && Serve(p, bytes, false, true) == RelaysOf(p, fs[..k])
    ensures bytes == Concat(fs) ==> Serve(p, bytes, false, true) == RelaysOf(p, fs)
  {
    if |bytes| < |Concat(fs)| {
      assert bytes == Concat(fs)[..|bytes|];
      RelayedIsPrefix(p, fs, |bytes|);
    } else {
      assert bytes == Concat(fs) == Concat(fs) + [] && fs[..|fs|] == fs;
      ServeFrames(p, fs, [], Frame(Header(0, 0, KEEP_ALIVE, 0, 0), []));
    }
  }

  /** Client to server: what is relayed for a registered session is, in order, what the first few frames
      the client queued ask for, and all of them once the writer has caught up. */
  lemma QueueToRelay(p: Peer, acts: seq<Act>)
    requires var fs := Taken(Link(true, [], []), acts);
             AllWf(fs) && forall i :: 0 <= i < |fs| ==> Aligned(fs[i])
    ensures var fs := Taken(Link(true, [], []), acts);
            var end := After(Link(true, [], []), acts);
            && (exists k :: 0 <= k <= |fs| && Serve(p, end.wire, false, true) == RelaysOf(p, fs[..k]))
            && (end.up && end.queue == [] ==> Serve(p, end.wire, false, true) == RelaysOf(p, fs))
            && ((forall i :: 0 <= i < |acts| && acts[i].Round? ==> !acts[i].fails) ==> end.up)
  {
    var start := Link(true, [], []);
    WireIsPrefix(start, acts);
    assert Due(start) == [];
    var fs, end := Taken(start, acts), After(start, acts);
    assert end.wire <= Concat(fs);
    if end.up && end.queue == [] { assert end.wire == Due(end); }
    if forall i :: 0 <= i < |acts| && acts[i].Round? ==> !acts[i].fails { UpUnlessFailed(start, acts); }
    ServePrefix(p, fs, end.wire);
  }

  // ----- The order of the handshake

  lemma {:induction false} NoLateUpgrade(p: Peer, input: seq<byte>)
    ensures Upgraded !in Serve(p, input, false, true)
    decreases |input|
  {
    var n := ServeOne(p, input, false, true);
    if n.Go? { NoLateUpgrade(p, n.rest); }
  }

  /** A lenient server upgrades a session exactly when the first frame after Register is a valid proof:
      one queued frame that the writer gets out before it, and the session stays unverified. */
  lemma UpgradedIffProofFirst(p: Peer, f: Frame, rest: seq<byte>)
    requires f.Wf() && !p.strict
    ensures Upgraded in Serve(p, f.Wire() + rest, true, true) <==>
            f.h.cmd == AUTH_RESPONSE && |f.payload| <= AUTH_RESPONSE_PAYLOAD && p.verify(f.payload)
  {
    FrontFrame(f, rest);
    FirstFrame(p, f, rest);
    NoLateUpgrade(p, f.Wire() + rest);
  }

  /** A strict server serves a connection exactly when the proof comes first. */
  lemma ServedIffProofFirst(p: Peer, f: Frame, rest: seq<byte>)
    requires f.Wf() && p.strict
    ensures Serve(p, f.Wire() + rest, true, false) != [] <==>
            f.h.cmd == AUTH_RESPONSE && |f.payload| <= AUTH_RESPONSE_PAYLOAD && p.verify(f.payload)
  {
    FrontFrame(f, rest);
  }

  /** From the first byte: a strict server registers a connection exactly when Register and token are right, it got
      its challenge out, and a valid proof of at most 64 bytes comes next. */
  lemma StrictRegisteredIff(reg: Frame, proof: Frame, rest: seq<byte>, token: seq<byte>, challenge: bool, verify: seq<byte> -> bool)
    requires reg.Wf() && proof.Wf()
    ensures Handled(reg.Wire() + (proof.Wire() + rest), token, true, challenge, verify) != [] <==>
            && reg.h.cmd == 1 && |reg.payload| <= 512 && (token == [] || reg.payload == token)
            && challenge && proof.h.cmd == 6 && |proof.payload| <= 64 && verify(proof.payload)
  {
    RegisteredIff(reg, proof.Wire() + rest, token, challenge, verify);
    if Registering(reg, token) && challenge {
      HandledAfter(reg, proof.Wire() + rest, token, true, challenge, verify);
      ServedIffProofFirst(Peer(reg.h.toId, true, verify), proof, rest);
    }
  }

  /** A proof behind other frames is not drained: the server goes on inside its 64 bytes. */
  lemma {:induction false} LateProofIsNotDrained(p: Peer, fs: seq<Frame>, proof: Frame, rest: seq<byte>)
    requires AllWf(fs) && (forall i :: 0 <= i < |fs| ==> Aligned(fs[i]))
    requires proof.Wf() && proof.h.cmd == AUTH_RESPONSE
    ensures Serve(p, Concat(fs) + (proof.Wire() + rest), false, true)
         == RelaysOf(p, fs) + Serve(p, proof.payload + rest, false, true)
  {
    var tail := proof.Wire() + rest;
    if fs == [] {
      assert Concat(fs) + tail == tail;
      ServeFrame(p, proof, rest);
      if proof.payload == [] { assert proof.payload + rest == rest; }
    } else {
      Regroup(fs[0].Wire(), Concat(fs[1..]), tail);
      ServeFrame(p, fs[0], Concat(fs[1..]) + tail);
      LateProofIsNotDrained(p, fs[1..], proof, rest);
      ConcatAssociates(RelayOf(p, fs[0]), RelaysOf(p, fs[1..]), Serve(p, proof.payload + rest, false, true));
    }
  }
}
