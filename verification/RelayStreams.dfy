/** Reading frames off a byte stream: the relay server's session handler and the client's receive
    loop. A read either gets all the bytes it asks for or the stream has ended. */
module RelayStreams {
  import opened Types
  import opened RelayProtocol

  // ----- The server's session handler

  /** What a session handler asks of the session manager. */
  datatype Action =
    | Registered(verified: bool)
    | Upgraded
    | Relayed(to: uint32, frame: seq<byte>)

  /** The connection a handler serves: who it says it is, the server's mode, and the proof check. */
  datatype Peer = Peer(from: uint32, strict: bool, verify: seq<byte> -> bool)

  predicate Relays(cmd: byte) {
    cmd == FORWARD || cmd == PROBE
  }

  /** What handling one frame leads to; `pending` while a challenge is unanswered. */
  datatype Next = Stop | Go(actions: seq<Action>, rest: seq<byte>, registered: bool)

  function ServeOne(p: Peer, input: seq<byte>, pending: bool, registered: bool): (n: Next)
    ensures n.Go? ==> |n.rest| < |input|
  {
    if |input| < HEADER_SIZE then Stop else
    var h, body := Unmarshal(input).h, input[HEADER_SIZE..];
    if pending && h.cmd == AUTH_RESPONSE then
      if h.payloadLen > AUTH_RESPONSE_PAYLOAD || |body| < h.payloadLen then Stop
      else if !p.verify(body[..h.payloadLen]) then Stop
      else Go([if registered then Upgraded else Registered(true)], body[h.payloadLen..], true)
    else if pending && p.strict then Stop
    else if Relays(h.cmd) then
      if h.payloadLen > MAX_FORWARD_PAYLOAD || |body| < h.payloadLen then Stop
      else
        var frame := input[..HEADER_SIZE + h.payloadLen];
        Go([Relayed(h.toId, if h.cmd == FORWARD then Stamped(frame, p.from) else frame)],
           body[h.payloadLen..], registered)
    else Go([], body, registered)
  }

  /** The frame loop: after its first frame a handler is never waiting for a proof. */
  function Serve(p: Peer, input: seq<byte>, pending: bool, registered: bool): seq<Action>
    decreases |input|
  {
    match ServeOne(p, input, pending, registered)
    case Stop => []
    case Go(actions, rest, now) => actions + Serve(p, rest, false, now)
  }

  method ServeFrameAt(p: Peer, stream: seq<byte>, waiting: bool, admitted: bool) returns (n: Next)
    ensures n == ServeOne(p, stream, waiting, admitted)
  {
    var pending := waiting;
    if |stream| < HEADER_SIZE { return Stop; }
    var h, body := Unmarshal(stream).h, stream[HEADER_SIZE..];
    if pending {
      if h.cmd == AUTH_RESPONSE {
        if h.payloadLen > AUTH_RESPONSE_PAYLOAD { return Stop; }
        if |body| < h.payloadLen { return Stop; }
        if !p.verify(body[..h.payloadLen]) { return Stop; }
        return Go([if admitted then Upgraded else Registered(true)], body[h.payloadLen..], true);
      }
      if p.strict { return Stop; }
      pending := false;
    }
    if h.cmd == KEEP_ALIVE { return Go([], body, admitted); }
    if h.cmd == FORWARD || h.cmd == PROBE {
      if h.payloadLen > MAX_FORWARD_PAYLOAD { return Stop; }
      if |body| < h.payloadLen { return Stop; } // the next header read finds the stream ended
      var size := HEADER_SIZE + h.payloadLen;
      var frame := new byte[size](i requires 0 <= i < size => stream[i]);
      assert frame[..] == stream[..size];
      if h.cmd == FORWARD { StampSender(frame, p.from); }
      return Go([Relayed(h.toId, frame[..])], body[h.payloadLen..], admitted);
    }
    return Go([], body, admitted);
  }

  lemma ConcatAssociates(a: seq<Action>, b: seq<Action>, c: seq<Action>)
    ensures a + (b + c) == (a + b) + c
  {}

  method ServeSession(p: Peer, input: seq<byte>, challenged: bool, admitted: bool) returns (actions: seq<Action>)
    ensures actions == Serve(p, input, challenged, admitted)
  {
    var pending, registered, stream := challenged, admitted, input;
    actions := [];
    while true
      invariant actions + Serve(p, stream, pending, registered) == Serve(p, input, challenged, admitted)
      decreases |stream|
    {
      var n := ServeFrameAt(p, stream, pending, registered);
      if n.Stop? { return; }
      ConcatAssociates(actions, n.actions, Serve(p, n.rest, false, n.registered));
      actions := actions + n.actions;
      pending, registered, stream := false, n.registered, n.rest;
    }
  }

  /** The handler from its first byte: Register frame, shared token, challenge, frame loop. */
  method HandleSession(input: seq<byte>, token: seq<byte>, strict: bool, challenge: bool, verify: seq<byte> -> bool)
    returns (actions: seq<Action>)
    ensures actions == Handled(input, token, strict, challenge, verify)
    ensures actions != [] ==> actions[0].Registered? && actions[0].verified == strict
    ensures actions != [] ==> NoRegister(actions[1..])
  {
    if |input| < HEADER_SIZE { return []; }
    var h := Unmarshal(input).h;
    if h.cmd != REGISTER { return []; }
    var stream := input[HEADER_SIZE..];
    var payload := [];
    if h.payloadLen > 0 {
      if h.payloadLen > MAX_REGISTER_PAYLOAD || |stream| < h.payloadLen { return []; }
      payload, stream := stream[..h.payloadLen], stream[h.payloadLen..];
    }
    assert payload == input[HEADER_SIZE..HEADER_SIZE + h.payloadLen];
    if token != [] && payload != token { return []; }
    if !challenge && strict { return []; }
    var p := Peer(h.toId, strict, verify);
    assert stream == AfterRegister(input);
    actions := ServeSession(p, stream, challenge, !strict);
    if strict {
      StrictRegistersFirst(p, stream);
    } else {
      RegisteredStays(p, stream, challenge);
      assert ([Registered(false)] + actions)[1..] == actions;
      actions := [Registered(false)] + actions;
    }
  }

  /** A Register frame the server accepts. */
  predicate Accepted(input: seq<byte>, token: seq<byte>) {
    && |input| >= HEADER_SIZE
    && var h := Unmarshal(input).h;
    && h.cmd == REGISTER && h.payloadLen <= MAX_REGISTER_PAYLOAD && |input| >= HEADER_SIZE + h.payloadLen
    && (token == [] || input[HEADER_SIZE..HEADER_SIZE + h.payloadLen] == token)
  }

  function AfterRegister(input: seq<byte>): seq<byte>
    requires |input| >= HEADER_SIZE && |input| >= HEADER_SIZE + Unmarshal(input).h.payloadLen
  {
    input[HEADER_SIZE + Unmarshal(input).h.payloadLen..]
  }

  /** Everything a handler does with a connection's bytes. */
  function Handled(input: seq<byte>, token: seq<byte>, strict: bool, challenge: bool, verify: seq<byte> -> bool): seq<Action> {
    if !Accepted(input, token) || (strict && !challenge) then []
    else
      (if strict then [] else [Registered(false)])
      + Serve(Peer(Unmarshal(input).h.toId, strict, verify), AfterRegister(input), challenge, !strict)
  }

  predicate NoRegister(actions: seq<Action>) {
    forall a :: a in actions ==> !a.Registered?
  }

  lemma {:induction false} RegisteredStays(p: Peer, input: seq<byte>, pending: bool)
    ensures NoRegister(Serve(p, input, pending, true))
    decreases |input|
  {
    var n := ServeOne(p, input, pending, true);
    if n.Go? { RegisteredStays(p, n.rest, false); }
  }

  /** Under strict authentication nothing happens before the proof verifies; it then registers once. */
  lemma StrictRegistersFirst(p: Peer, input: seq<byte>)
    requires p.strict
    ensures var actions := Serve(p, input, true, false);
            actions != [] ==> actions[0] == Registered(true) && NoRegister(actions[1..])
  {
    var n := ServeOne(p, input, true, false);
    if n.Go? {
      RegisteredStays(p, n.rest, false);
      var rest := Serve(p, n.rest, false, true);
      assert (n.actions + rest)[1..] == rest;
    }
  }

  // ----- Who a relayed frame says it is from

  /** A frame as the relay passes it on. */
  function Outgoing(f: Frame, from: uint32): Frame {
    if f.h.cmd == FORWARD then f.(h := f.h.(toId := from)) else f
  }

  /** The bytes of one frame, read back. */
  function FrameOf(bytes: seq<byte>): Frame {
    if |bytes| < HEADER_SIZE then Frame(Header(0, 0, 0, 0, 0), []) else Frame(Unmarshal(bytes).h, bytes[HEADER_SIZE..])
  }

  /** The frame a handler read when it asked to relay `a`. */
  function Original(a: Action): Frame
    requires a.Relayed?
  {
    var f := FrameOf(a.frame);
    f.(h := f.h.(toId := a.to))
  }

  /** A relayed frame is a whole Forward or Probe frame within the limit, addressed to where it is sent,
      and a Forward one carries the identity its connection registered with. */
  predicate Framed(a: Action, from: uint32) {
    a.Relayed? ==>
      var f := Original(a);
      f.Wf() && Relays(f.h.cmd) && |f.payload| <= MAX_FORWARD_PAYLOAD
      && a.frame == Outgoing(f, from).Wire() && FrameOf(a.frame) == Outgoing(f, from)
  }

  lemma FrameOfWire(f: Frame)
    ensures FrameOf(f.Wire()) == f
  {
    UnmarshalMarshal(f.h, f.payload);
  }

  lemma ReadBack(a: Action, f: Frame, from: uint32)
    requires f.Wf() && Relays(f.h.cmd) && |f.payload| <= MAX_FORWARD_PAYLOAD
    requires a.Relayed? && a.to == f.h.toId && FrameOf(a.frame) == Outgoing(f, from) && a.frame == Outgoing(f, from).Wire()
    ensures Framed(a, from)
  {
    assert Original(a) == f;
  }

  lemma StampedIsOutgoing(f: Frame, from: uint32)
    requires f.h.cmd == FORWARD
    ensures Stamped(f.Wire(), from) == Outgoing(f, from).Wire()
  {
    StampedIsFrame(f, from);
  }

  lemma RelayIsFramed(f: Frame, from: uint32, frame: seq<byte>)
    requires f.Wf() && Relays(f.h.cmd) && |f.payload| <= MAX_FORWARD_PAYLOAD && frame == Outgoing(f, from).Wire()
    ensures Framed(Relayed(f.h.toId, frame), from)
  {
    FrameOfWire(Outgoing(f, from));
    ReadBack(Relayed(f.h.toId, frame), f, from);
  }

  /** The frame at the front of `input`, with a payload that is all there. */
  lemma FrontIsFramed(input: seq<byte>, from: uint32)
    requires |input| >= HEADER_SIZE
    requires var h := Unmarshal(input).h;
             HEADER_SIZE + h.payloadLen <= |input| && Relays(h.cmd) && h.payloadLen <= MAX_FORWARD_PAYLOAD
    ensures var h := Unmarshal(input).h;
            var frame := input[..HEADER_SIZE + h.payloadLen];
            Framed(Relayed(h.toId, if h.cmd == FORWARD then Stamped(frame, from) else frame), from)
  {
    var h := Unmarshal(input).h;
    var f := Frame(h, input[HEADER_SIZE..HEADER_SIZE + h.payloadLen]);
    FrontBytes(input, f);
    if h.cmd == FORWARD { StampedIsOutgoing(f, from); }
    RelayIsFramed(f, from, Outgoing(f, from).Wire());
  }

  lemma FrontBytes(input: seq<byte>, f: Frame)
    requires |input| >= HEADER_SIZE && HEADER_SIZE + Unmarshal(input).h.payloadLen <= |input|
    requires f == Frame(Unmarshal(input).h, input[HEADER_SIZE..HEADER_SIZE + Unmarshal(input).h.payloadLen])
    ensures f.Wire() == input[..HEADER_SIZE + Unmarshal(input).h.payloadLen]
  {
    MarshalUnmarshal(input);
  }

  lemma OneIsFramed(p: Peer, input: seq<byte>, pending: bool, registered: bool)
    ensures var n := ServeOne(p, input, pending, registered);
            n.Go? ==> |n.actions| <= 1 && forall a :: a in n.actions ==> Framed(a, p.from)
  {
    if |input| >= HEADER_SIZE {
      var h := Unmarshal(input).h;
      if HEADER_SIZE + h.payloadLen <= |input| && Relays(h.cmd) && h.payloadLen <= MAX_FORWARD_PAYLOAD {
        FrontIsFramed(input, p.from);
      }
    }
  }

  /** On any bytes at all, every frame the loop relays is framed: a connection cannot pass for another. */
  lemma {:induction false} ServedIsFramed(p: Peer, input: seq<byte>, pending: bool, registered: bool)
    ensures forall a :: a in Serve(p, input, pending, registered) ==> Framed(a, p.from)
    decreases |input|
  {
    var n := ServeOne(p, input, pending, registered);
    if n.Go? {
      OneIsFramed(p, input, pending, registered);
      ServedIsFramed(p, n.rest, false, n.registered);
    }
  }

  lemma HandledIsFramed(input: seq<byte>, token: seq<byte>, strict: bool, challenge: bool, verify: seq<byte> -> bool)
    ensures forall a :: a in Handled(input, token, strict, challenge, verify) ==> Framed(a, PeerOf(input))
  {
    if Accepted(input, token) {
      ServedIsFramed(Peer(Unmarshal(input).h.toId, strict, verify), AfterRegister(input), challenge, !strict);
    }
  }

  /** The identity a connection registers with. */
  function PeerOf(input: seq<byte>): uint32 {
    if |input| < HEADER_SIZE then 0 else Unmarshal(input).h.toId
  }

  // ----- The server on a stream of frames

  /** Frames the server loop consumes whole: it drains a payload only for Forward and Probe. */
  predicate Aligned(f: Frame) {
    if Relays(f.h.cmd) then |f.payload| <= MAX_FORWARD_PAYLOAD else f.payload == []
  }

  function RelayOf(p: Peer, f: Frame): seq<Action> {
    if f.h.cmd == FORWARD then [Relayed(f.h.toId, Stamped(f.Wire(), p.from))]
    else if f.h.cmd == PROBE then [Relayed(f.h.toId, f.Wire())]
    else []
  }

  function RelaysOf(p: Peer, fs: seq<Frame>): seq<Action> {
    if fs == [] then [] else RelayOf(p, fs[0]) + RelaysOf(p, fs[1..])
  }

  /** A frame is consumed exactly when it is aligned; otherwise the loop stops at it or goes on inside
      its payload. */
  lemma ServeFrame(p: Peer, f: Frame, rest: seq<byte>)
    requires f.Wf()
    ensures Aligned(f) ==> Serve(p, f.Wire() + rest, false, true) == RelayOf(p, f) + Serve(p, rest, false, true)
    ensures !Aligned(f) && Relays(f.h.cmd) ==> Serve(p, f.Wire() + rest, false, true) == []
    ensures !Aligned(f) && !Relays(f.h.cmd) ==>
              Serve(p, f.Wire() + rest, false, true) == Serve(p, f.payload + rest, false, true)
  {
    FrontFrame(f, rest);
    if !Relays(f.h.cmd) && f.payload == [] { assert f.payload + rest == rest; }
  }

  /** A lenient server: a valid proof in the first frame upgrades the session, a rejected one ends it, and any
      other first frame is served as if there had been no challenge. */
  lemma FirstFrame(p: Peer, f: Frame, rest: seq<byte>)
    requires f.Wf() && !p.strict
    ensures f.h.cmd == AUTH_RESPONSE && |f.payload| <= AUTH_RESPONSE_PAYLOAD && p.verify(f.payload) ==>
              Serve(p, f.Wire() + rest, true, true) == [Upgraded] + Serve(p, rest, false, true)
    ensures f.h.cmd == AUTH_RESPONSE && !(|f.payload| <= AUTH_RESPONSE_PAYLOAD && p.verify(f.payload)) ==>
              Serve(p, f.Wire() + rest, true, true) == []
    ensures f.h.cmd != AUTH_RESPONSE ==>
              Serve(p, f.Wire() + rest, true, true) == Serve(p, f.Wire() + rest, false, true)
  {
    FrontFrame(f, rest);
  }

  /** The server relays exactly the Forward and Probe frames, in order, stamped, and nothing of a
      frame the stream ends in. */
  lemma {:induction false} ServeFrames(p: Peer, fs: seq<Frame>, tail: seq<byte>, cut: Frame)
    requires AllWf(fs) && forall i :: 0 <= i < |fs| ==> Aligned(fs[i])
    requires Aligned(cut) && CutFrame(tail, cut)
    ensures Serve(p, Concat(fs) + tail, false, true) == RelaysOf(p, fs)
  {
    if fs == [] {
      assert Concat(fs) + tail == tail;
      if |tail| >= HEADER_SIZE { CutHeader(tail, cut); }
    } else {
      var rest := Concat(fs[1..]) + tail;
      HeadOfStream(fs, tail);
      ServeFrame(p, fs[0], rest);
      ServeFrames(p, fs[1..], tail, cut);
    }
  }

  lemma PrefixConcat(fs: seq<Frame>, k: nat)
    requires k < |fs|
    ensures Concat(fs[..k+1]) == fs[0].Wire() + Concat(fs[1..][..k])
  {
    assert fs[..k+1][1..] == fs[1..][..k];
  }

  /** A broken stream is some whole frames and a part of the next one. */
  lemma {:induction false} CutAnywhere(fs: seq<Frame>, n: nat) returns (k: nat, tail: seq<byte>)
    requires AllWf(fs) && n < |Concat(fs)|
    ensures k < |fs| && Concat(fs)[..n] == Concat(fs[..k]) + tail && CutFrame(tail, fs[k])
  {
    var w, rest := fs[0].Wire(), Concat(fs[1..]);
    if n < |w| {
      k, tail := 0, w[..n];
      assert (w + rest)[..n] == w[..n] && fs[..0] == [];
    } else {
      var i;
      i, tail := CutAnywhere(fs[1..], n - |w|);
      PrefixConcat(fs, i);
      assert (w + rest)[..n] == w + rest[..n - |w|];
      assert w + (Concat(fs[1..][..i]) + tail) == w + Concat(fs[1..][..i]) + tail;
      k := i + 1;
    }
  }

  /** Wherever the connection breaks, what was relayed is what the whole frames before it ask for. */
  lemma RelayedIsPrefix(p: Peer, fs: seq<Frame>, n: nat)
    requires AllWf(fs) && (forall i :: 0 <= i < |fs| ==> Aligned(fs[i])) && n < |Concat(fs)|
    ensures exists k :: 0 <= k < |fs| && Serve(p, Concat(fs)[..n], false, true) == RelaysOf(p, fs[..k])
  {
    var k, tail := CutAnywhere(fs, n);
    ServeFrames(p, fs[..k], tail, fs[k]);
  }

  /** The frames of a stream that are for somebody else. */
  function Relaying(fs: seq<Frame>): seq<Frame> {
    if fs == [] then [] else (if Relays(fs[0].h.cmd) then [fs[0]] else []) + Relaying(fs[1..])
  }

  /** Whatever else a stream carries, each of them is asked for once, in order, under the sender's identity. */
  lemma {:induction false} RelaysOfFrames(p: Peer, fs: seq<Frame>)
    ensures |RelaysOf(p, fs)| == |Relaying(fs)|
    ensures forall i :: 0 <= i < |Relaying(fs)| ==>
              RelaysOf(p, fs)[i] == Relayed(Relaying(fs)[i].h.toId, Outgoing(Relaying(fs)[i], p.from).Wire())
  {
    if fs != [] {
      RelaysOfFrames(p, fs[1..]);
      if fs[0].h.cmd == FORWARD { StampedIsOutgoing(fs[0], p.from); }
      var rest, n := RelaysOf(p, fs[1..]), |RelayOf(p, fs[0])|;
      forall i | n <= i < |Relaying(fs)|
        ensures RelaysOf(p, fs)[i] == rest[i-n] && Relaying(fs)[i] == Relaying(fs[1..])[i-n] {}
    }
  }

  /** A Register frame with the right token, under which a stream is served. */
  predicate Registering(reg: Frame, token: seq<byte>) {
    reg.Wf() && reg.h.cmd == REGISTER && |reg.payload| <= MAX_REGISTER_PAYLOAD && (token == [] || reg.payload == token)
  }

  lemma AfterRegistering(reg: Frame, token: seq<byte>, rest: seq<byte>)
    requires Registering(reg, token)
    ensures var input := reg.Wire() + rest;
            Accepted(input, token) && PeerOf(input) == reg.h.toId && AfterRegister(input) == rest
  {
    FrontFrame(reg, rest);
  }

  predicate AllAligned(fs: seq<Frame>) {
    AllWf(fs) && forall i :: 0 <= i < |fs| ==> Aligned(fs[i])
  }

  /** A lenient server registers a connection exactly when its first frame is a Register of at most 512 bytes
      with the shared token, if there is one; a strict server serves no other. */
  lemma RegisteredIff(reg: Frame, rest: seq<byte>, token: seq<byte>, challenge: bool, verify: seq<byte> -> bool)
    requires reg.Wf()
    ensures var allowed := reg.h.cmd == 1 && |reg.payload| <= 512 && (token == [] || reg.payload == token);
            && (!allowed ==> forall strict :: Handled(reg.Wire() + rest, token, strict, challenge, verify) == [])
            && (allowed ==> Handled(reg.Wire() + rest, token, false, challenge, verify) != []
                            && Handled(reg.Wire() + rest, token, false, challenge, verify)[0] == Registered(false))
            && (!challenge ==> Handled(reg.Wire() + rest, token, true, challenge, verify) == [])
  {
    FrontFrame(reg, rest);
  }

  /** A connection that ends inside its first frame gets nothing. */
  lemma CutRegister(input: seq<byte>, reg: Frame, token: seq<byte>, strict: bool, challenge: bool, verify: seq<byte> -> bool)
    requires CutFrame(input, reg)
    ensures Handled(input, token, strict, challenge, verify) == []
  {
    if |input| >= HEADER_SIZE { CutHeader(input, reg); }
  }

  lemma HandledAfter(reg: Frame, rest: seq<byte>, token: seq<byte>, strict: bool, challenge: bool, verify: seq<byte> -> bool)
    requires Registering(reg, token) && (strict ==> challenge)
    ensures Handled(reg.Wire() + rest, token, strict, challenge, verify)
         == (if strict then [] else [Registered(false)]) + Serve(Peer(reg.h.toId, strict, verify), rest, challenge, !strict)
  {
    AfterRegistering(reg, token, rest);
  }

  lemma ServeUnproven(p: Peer, fs: seq<Frame>, tail: seq<byte>, cut: Frame)
    requires !p.strict && AllAligned(fs) && Aligned(cut) && CutFrame(tail, cut) && fs != [] && fs[0].h.cmd != AUTH_RESPONSE
    ensures Serve(p, Concat(fs) + tail, true, true) == RelaysOf(p, fs)
  {
    ServeFrames(p, fs, tail, cut);
    HeadOfStream(fs, tail);
    FirstFrame(p, fs[0], Concat(fs[1..]) + tail);
  }

  lemma HeadOfStream(fs: seq<Frame>, tail: seq<byte>)
    requires fs != []
    ensures Concat(fs) + tail == fs[0].Wire() + (Concat(fs[1..]) + tail)
  {}

  /** A client without a proof, on a lenient server: what it asks for is exactly its relayed frames. */
  lemma HandledPlain(reg: Frame, fs: seq<Frame>, tail: seq<byte>, cut: Frame, token: seq<byte>, challenge: bool, verify: seq<byte> -> bool)
    requires Registering(reg, token) && AllAligned(fs) && Aligned(cut) && CutFrame(tail, cut)
    requires challenge ==> fs != [] && fs[0].h.cmd != AUTH_RESPONSE
    ensures Handled(reg.Wire() + (Concat(fs) + tail), token, false, challenge, verify)
         == [Registered(false)] + RelaysOf(Peer(reg.h.toId, false, verify), fs)
  {
    var p := Peer(reg.h.toId, false, verify);
    HandledAfter(reg, Concat(fs) + tail, token, false, challenge, verify);
    if challenge { ServeUnproven(p, fs, tail, cut); } else { ServeFrames(p, fs, tail, cut); }
  }

  lemma ServeProven(p: Peer, proof: Frame, rest: seq<byte>, registered: bool)
    requires proof.Wf() && proof.h.cmd == AUTH_RESPONSE && |proof.payload| <= AUTH_RESPONSE_PAYLOAD && p.verify(proof.payload)
    ensures Serve(p, proof.Wire() + rest, true, registered)
         == [if registered then Upgraded else Registered(true)] + Serve(p, rest, false, true)
  {
    FrontFrame(proof, rest);
  }

  /** A client whose proof comes first, on either kind of server. */
  lemma HandledProven(reg: Frame, proof: Frame, fs: seq<Frame>, tail: seq<byte>, cut: Frame,
                      token: seq<byte>, strict: bool, verify: seq<byte> -> bool)
    requires Registering(reg, token) && AllAligned(fs) && Aligned(cut) && CutFrame(tail, cut)
    requires proof.Wf() && proof.h.cmd == AUTH_RESPONSE && |proof.payload| <= AUTH_RESPONSE_PAYLOAD && verify(proof.payload)
    ensures Handled(reg.Wire() + (proof.Wire() + (Concat(fs) + tail)), token, strict, true, verify)
         == (if strict then [Registered(true)] else [Registered(false), Upgraded]) + RelaysOf(Peer(reg.h.toId, strict, verify), fs)
  {
    var p := Peer(reg.h.toId, strict, verify);
    HandledAfter(reg, proof.Wire() + (Concat(fs) + tail), token, strict, true, verify);
    ServeProven(p, proof, Concat(fs) + tail, !strict);
    ServeFrames(p, fs, tail, cut);
    if !strict { ConcatAssociates([Registered(false)], [Upgraded], RelaysOf(p, fs)); }
  }

  /** Alignment matters: after a keep-alive with a payload byte, the next frame is lost. */
  lemma KeepAlivePayloadLosesNext(p: Peer, f: Frame, g: Frame)
    requires f == Frame(Header(0, 1, KEEP_ALIVE, 0, 0), [0]) && g == Frame(Header(0, 0, FORWARD, 7, 0), [])
    ensures !Aligned(f) && RelayOf(p, g) != [] && Serve(p, f.Wire() + g.Wire(), false, true) == []
  {
    ServeFrame(p, f, g.Wire());
    ShiftedFrame(p, [0] + g.Wire(), g);
  }

  lemma ShiftedFrame(p: Peer, rest: seq<byte>, g: Frame)
    requires g == Frame(Header(0, 0, FORWARD, 7, 0), []) && rest == [0] + g.Wire()
    ensures Serve(p, rest, false, true) == []
  {
    assert g.Wire() == [0, 0] + [0, 0, 0, 0] + [FORWARD] + [7, 0, 0, 0] + [0];
    assert rest[6] == 0 && |rest[HEADER_SIZE..]| == 1;
    assert Serve(p, rest[HEADER_SIZE..], false, true) == [];
  }

  // ----- The client's receive loop

  /** What the client hands up: a packet for WireGuard, or a probe for the probe worker. */
  datatype Event = Packet(from: uint32, data: seq<byte>) | ProbeTask(from: uint32, data: seq<byte>)

  /** What one frame yields; anything else is drained and dropped. */
  function EventOf(h: Header, data: seq<byte>, bufLen: nat): seq<Event> {
    if h.cmd == PROBE && h.payloadLen <= MAX_PROBE_PAYLOAD then [ProbeTask(h.toId, data)]
    else if h.cmd == FORWARD && h.payloadLen <= bufLen then [Packet(h.toId, data)]
    else []
  }

  function EventsOf(fs: seq<Frame>, bufLen: nat): seq<Event> {
    if fs == [] then [] else EventOf(fs[0].h, fs[0].payload, bufLen) + EventsOf(fs[1..], bufLen)
  }

  function Receive(input: seq<byte>, bufLen: nat): seq<Event> {
    if |input| < HEADER_SIZE then [] else
    var h, body := Unmarshal(input).h, input[HEADER_SIZE..];
    if |body| < h.payloadLen then []
    else EventOf(h, body[..h.payloadLen], bufLen) + Receive(body[h.payloadLen..], bufLen)
  }

  datatype Received = Received(events: seq<Event>, rest: seq<byte>, connected: bool)

  /** One call on an established connection that will carry `input`. The read deadline passes after
      `arrived` bytes; if `arrived` is beyond the input, the stream ends first. A deadline inside a header
      ends the call and keeps the connection; a payload that stays short tears it down for Probe and
      Forward, while for any other command the failed drain goes unnoticed. */
  function ReceiveStep(input: seq<byte>, arrived: nat, bufLen: nat): Received {
    var have := if arrived <= |input| then arrived else |input|;
    if have < HEADER_SIZE then Received([], input[have..], arrived <= |input|)
    else
      var h, body := Unmarshal(input).h, input[HEADER_SIZE..];
      if have - HEADER_SIZE < h.payloadLen then Received([], input[have..], !Relays(h.cmd))
      else Received(EventOf(h, body[..h.payloadLen], bufLen), body[h.payloadLen..], true)
  }

  method ReceiveOnce(input: seq<byte>, arrived: nat, packet: array<byte>)
    returns (events: seq<Event>, rest: seq<byte>, connected: bool)
    modifies packet
    ensures Received(events, rest, connected) == ReceiveStep(input, arrived, packet.Length)
    ensures |events| == 1 && events[0].Packet? ==>
              |events[0].data| <= packet.Length && packet[..|events[0].data|] == events[0].data
  {
    var have := if arrived <= |input| then arrived else |input|;
    events, rest, connected := [], input[have..], true;
    if have < HEADER_SIZE {
      if arrived > |input| { connected := false; }
      return;
    }
    var h, body := Unmarshal(input).h, input[HEADER_SIZE..have];
    var short := |body| < h.payloadLen;
    if !short {
      rest := input[HEADER_SIZE..][h.payloadLen..];
      assert body[..h.payloadLen] == input[HEADER_SIZE..][..h.payloadLen];
    }
    if h.cmd == PROBE {
      if short { connected := false; return; }
      if h.payloadLen > MAX_PROBE_PAYLOAD { return; }
      events := [ProbeTask(h.toId, body[..h.payloadLen])];
    } else if h.cmd == FORWARD {
      if short { connected := false; return; }
      if h.payloadLen > packet.Length { return; }
      forall i | 0 <= i < h.payloadLen { packet[i] := body[i]; }
      events := [Packet(h.toId, body[..h.payloadLen])];
    }
  }

  /** Without deadlines, calls add up to what the stream yields. */
  lemma StepIsReceive(input: seq<byte>, arrived: nat, bufLen: nat)
    requires arrived > |input|
    ensures var r := ReceiveStep(input, arrived, bufLen);
            r.events + (if r.connected then Receive(r.rest, bufLen) else []) == Receive(input, bufLen)
  {}

  /** One frame off the front: a probe of at most 2048 bytes goes to the probe worker, a packet that fits the
      buffer to WireGuard, each under the identity in its header; anything else is skipped whole. */
  lemma ReceiveOneFrame(f: Frame, rest: seq<byte>, bufLen: nat)
    requires f.Wf()
    ensures f.h.cmd == 4 && |f.payload| <= 2048 ==>
              Receive(f.Wire() + rest, bufLen) == [ProbeTask(f.h.toId, f.payload)] + Receive(rest, bufLen)
    ensures f.h.cmd == 2 && |f.payload| <= bufLen ==>
              Receive(f.Wire() + rest, bufLen) == [Packet(f.h.toId, f.payload)] + Receive(rest, bufLen)
    ensures !(f.h.cmd == 4 && |f.payload| <= 2048) && !(f.h.cmd == 2 && |f.payload| <= bufLen) ==>
              Receive(f.Wire() + rest, bufLen) == Receive(rest, bufLen)
  {
    FrontFrame(f, rest);
    assert (f.payload + rest)[..|f.payload|] == f.payload && (f.payload + rest)[|f.payload|..] == rest;
  }

  /** On any frames, with any commands and lengths, the client stays aligned: it hands up exactly what
      each frame yields, in order, and nothing of a frame the stream ends in. */
  lemma {:induction false} ReceiveFrames(fs: seq<Frame>, tail: seq<byte>, cut: Frame, bufLen: nat)
    requires AllWf(fs) && CutFrame(tail, cut)
    ensures Receive(Concat(fs) + tail, bufLen) == EventsOf(fs, bufLen)
  {
    if fs == [] {
      assert Concat(fs) + tail == tail;
      if |tail| >= HEADER_SIZE { CutHeader(tail, cut); }
    } else {
      var rest := Concat(fs[1..]) + tail;
      assert Concat(fs) + tail == fs[0].Wire() + rest;
      FrontFrame(fs[0], rest);
      ReceiveFrames(fs[1..], tail, cut, bufLen);
    }
  }

  /** Positions at which a frame starts. */
  ghost predicate AtFrame(fs: seq<Frame>, n: nat) {
    exists k :: 0 <= k <= |fs| && n == |Concat(fs[..k])|
  }

  /** Where the first frame of `fs` is hit by a deadline that costs the client its alignment. */
  predicate Spoils(f: Frame, arrived: nat) {
    0 < arrived < HEADER_SIZE || (HEADER_SIZE <= arrived < |f.Wire()| && !Relays(f.h.cmd))
  }

  lemma StartsAt(fs: seq<Frame>, n: nat)
    requires fs != [] && n <= |fs[0].Wire()|
    ensures AtFrame(fs, n) <==> n == 0 || n == |fs[0].Wire()|
  {
    assert fs[..0] == [] && fs[..1] == [fs[0]] && Concat([fs[0]]) == fs[0].Wire();
    assert n == |Concat(fs[..0])| || n == |Concat(fs[..1])| ==> AtFrame(fs, n);
    forall k | 0 <= k <= |fs| && n == |Concat(fs[..k])| ensures n == 0 || n == |fs[0].Wire()| {
      if k > 0 { assert fs[..k][0] == fs[0] && Concat(fs[..k]) == fs[0].Wire() + Concat(fs[..k][1..]); }
    }
  }

  /** What a call does with its first frame, wherever the deadline falls. */
  lemma StepOnFrame(f: Frame, rest: seq<byte>, arrived: nat, bufLen: nat)
    requires f.Wf()
    ensures var r := ReceiveStep(f.Wire() + rest, arrived, bufLen);
            if arrived >= |f.Wire()| then r == Received(EventOf(f.h, f.payload, bufLen), rest, true)
            else
              && r.events == [] && r.rest == (f.Wire() + rest)[arrived..]
              && (r.connected <==> arrived < HEADER_SIZE || !Relays(f.h.cmd))
  {
    FrontFrame(f, rest);
    assert (f.payload + rest)[..|f.payload|] == f.payload && (f.payload + rest)[|f.payload|..] == rest;
  }

  /** A call that starts at a frame leaves the next one at a frame, or the connection torn down, except
      exactly when its deadline passes inside the header, or inside a payload the client only discards. */
  lemma DeadlineKeepsAlignment(fs: seq<Frame>, arrived: nat, bufLen: nat)
    requires AllWf(fs) && fs != []
    ensures var input := Concat(fs);
            var r := ReceiveStep(input, arrived, bufLen);
            (!r.connected || AtFrame(fs, |input| - |r.rest|)) <==> !Spoils(fs[0], arrived)
  {
    var r := ReceiveStep(Concat(fs), arrived, bufLen);
    StepConsumes(fs[0], Concat(fs[1..]), arrived, bufLen);
    AlignedUnlessSpoiled(fs, arrived, |Concat(fs)| - |r.rest|, r.connected);
  }

  lemma AlignedUnlessSpoiled(fs: seq<Frame>, arrived: nat, n: nat, connected: bool)
    requires fs != [] && n == (if arrived < |fs[0].Wire()| then arrived else |fs[0].Wire()|)
    requires connected <==> arrived >= |fs[0].Wire()| || arrived < HEADER_SIZE || !Relays(fs[0].h.cmd)
    ensures (!connected || AtFrame(fs, n)) <==> !Spoils(fs[0], arrived)
  {
    StartsAt(fs, n);
  }

  /** How far a call gets, and whether it keeps the connection. */
  lemma StepConsumes(f: Frame, rest: seq<byte>, arrived: nat, bufLen: nat)
    requires f.Wf()
    ensures var input := f.Wire() + rest;
            var r := ReceiveStep(input, arrived, bufLen);
            && |input| - |r.rest| == (if arrived < |f.Wire()| then arrived else |f.Wire()|)
            && (r.connected <==> arrived >= |f.Wire()| || arrived < HEADER_SIZE || !Relays(f.h.cmd))
  {
    StepOnFrame(f, rest, arrived, bufLen);
  }

  // ----- The authentication exchange that comes before the first call

  const KEY_SIZE: nat := 32

  /** `proceed` is whether frames are read next; `key` is the challenge to answer. */
  datatype Exchanged = Exchanged(rest: seq<byte>, proceed: bool, key: Option<seq<byte>>)

  /** The deadline passes, or the stream ends, after `arrived` bytes. No header in time is taken for a relay
      that never challenges; any other first frame, and a key that stays short, tear the connection down. */
  function ExchangeStep(input: seq<byte>, arrived: nat): Exchanged {
    var have := if arrived <= |input| then arrived else |input|;
    if have < HEADER_SIZE then Exchanged(input[have..], true, None)
    else
      var h := Unmarshal(input).h;
      if h.cmd != AUTH_CHALLENGE || h.payloadLen != KEY_SIZE then Exchanged(input[HEADER_SIZE..], false, None)
      else if have < HEADER_SIZE + KEY_SIZE then Exchanged(input[have..], false, None)
      else Exchanged(input[HEADER_SIZE + KEY_SIZE..], true, Some(input[HEADER_SIZE..HEADER_SIZE + KEY_SIZE]))
  }

  /** `answered` is whether the proof can be computed and gets out. */
  method PerformAuthExchange(input: seq<byte>, arrived: nat, answered: bool) returns (rest: seq<byte>, proceed: bool)
    ensures var x := ExchangeStep(input, arrived);
            rest == x.rest && proceed == (x.proceed && (x.key.Some? ==> answered))
  {
    var have := if arrived <= |input| then arrived else |input|;
    rest, proceed := input[have..], true;
    if have < HEADER_SIZE { return; }
    var h := Unmarshal(input).h;
    rest := input[HEADER_SIZE..];
    if h.cmd != AUTH_CHALLENGE || h.payloadLen != KEY_SIZE { return rest, false; }
    if have < HEADER_SIZE + KEY_SIZE { return input[have..], false; }
    rest := input[HEADER_SIZE + KEY_SIZE..];
    if !answered { proceed := false; }
  }

  lemma ExchangeOnFrame(f: Frame, rest: seq<byte>, arrived: nat)
    requires f.Wf()
    ensures var x := ExchangeStep(f.Wire() + rest, arrived);
            var challenge := f.h.cmd == AUTH_CHALLENGE && |f.payload| == KEY_SIZE;
            && (x.proceed <==> arrived < HEADER_SIZE || (challenge && arrived >= |f.Wire()|))
            && (arrived < HEADER_SIZE ==> x.rest == (f.Wire() + rest)[arrived..])
            && (challenge && arrived >= |f.Wire()| ==> x.rest == rest && x.key == Some(f.payload))
  {
    FrontFrame(f, rest);
  }

  /** The exchange leaves the stream at a frame, or torn down, exactly unless its deadline passes after 1 to 11
      bytes of the first header. */
  lemma ExchangeKeepsAlignment(fs: seq<Frame>, arrived: nat)
    requires AllWf(fs) && fs != []
    ensures var input := Concat(fs);
            var x := ExchangeStep(input, arrived);
            (!x.proceed || AtFrame(fs, |input| - |x.rest|)) <==> !(0 < arrived < HEADER_SIZE)
  {
    var f := fs[0];
    ExchangeOnFrame(f, Concat(fs[1..]), arrived);
    var x := ExchangeStep(Concat(fs), arrived);
    if x.proceed { StartsAt(fs, if arrived < HEADER_SIZE then arrived else |f.Wire()|); }
  }

  /** A challenge that arrives in time is answered, and what follows is received as if it had not been there. */
  lemma ExchangeThenReceive(key: seq<byte>, rest: seq<byte>, arrived: nat, bufLen: nat)
    requires |key| == KEY_SIZE && arrived >= HEADER_SIZE + KEY_SIZE
    ensures var challenge := Frame(Header(0, 32, AUTH_CHALLENGE, 0, 0), key);
            && ExchangeStep(challenge.Wire() + rest, arrived) == Exchanged(rest, true, Some(key))
            && Receive(challenge.Wire() + rest, bufLen) == Receive(rest, bufLen)
  {
    var challenge := Frame(Header(0, 32, AUTH_CHALLENGE, 0, 0), key);
    ExchangeOnFrame(challenge, rest, arrived);
    FrontFrame(challenge, rest);
    assert (key + rest)[..32] == key && (key + rest)[32..] == rest;
  }

  // ----- Calls one after the other

  /** Repeated calls, each with its own deadline, until the connection is torn down. */
  function Calls(input: seq<byte>, deadlines: seq<nat>, bufLen: nat): seq<Event>
    decreases |deadlines|
  {
    if deadlines == [] then [] else
    var r := ReceiveStep(input, deadlines[0], bufLen);
    r.events + if r.connected then Calls(r.rest, deadlines[1..], bufLen) else []
  }

  /** No call's deadline spoils the frame it is at. */
  predicate Spared(fs: seq<Frame>, deadlines: seq<nat>)
    decreases |deadlines|
  {
    deadlines != [] && fs != [] ==>
      && !Spoils(fs[0], deadlines[0])
      && (if deadlines[0] < |fs[0].Wire()| then Spared(fs, deadlines[1..]) else Spared(fs[1..], deadlines[1..]))
  }

  lemma {:induction false} NothingFromNothing(deadlines: seq<nat>, bufLen: nat)
    ensures Calls([], deadlines, bufLen) == []
    decreases |deadlines|
  {
    if deadlines != [] { NothingFromNothing(deadlines[1..], bufLen); }
  }

  lemma EventsOfMore(fs: seq<Frame>, k: nat, bufLen: nat)
    requires fs != [] && k <= |fs[1..]|
    ensures EventsOf(fs[..k+1], bufLen) == EventOf(fs[0].h, fs[0].payload, bufLen) + EventsOf(fs[1..][..k], bufLen)
  {
    assert fs[..k+1][1..] == fs[1..][..k];
  }

  /** As long as no deadline spoils a frame, any number of calls hand up what the first few frames yield. */
  lemma {:induction false} CallsOnFrames(fs: seq<Frame>, deadlines: seq<nat>, bufLen: nat) returns (k: nat)
    requires AllWf(fs) && Spared(fs, deadlines)
    ensures k <= |fs| && Calls(Concat(fs), deadlines, bufLen) == EventsOf(fs[..k], bufLen)
    decreases |deadlines|
  {
    k := 0;
    if fs == [] {
      NothingFromNothing(deadlines, bufLen);
    } else if deadlines != [] {
      StepOnFrame(fs[0], Concat(fs[1..]), deadlines[0], bufLen);
      if deadlines[0] >= |fs[0].Wire()| {
        var more := CallsOnFrames(fs[1..], deadlines[1..], bufLen);
        EventsOfMore(fs, more, bufLen);
        k := more + 1;
      } else if deadlines[0] == 0 {
        assert Concat(fs)[0..] == Concat(fs);
        k := CallsOnFrames(fs, deadlines[1..], bufLen);
      }
    }
  }

  /** One lost header byte loses a packet that had fully arrived. */
  lemma TimeoutLosesPacket(f: Frame, bufLen: nat)
    requires f == Frame(Header(0, 1, FORWARD, 7, 0), [9]) && bufLen >= 1
    ensures Receive(f.Wire(), bufLen) == [Packet(7, [9])] && Receive(f.Wire()[1..], bufLen) == []
  {
    assert f.Wire() == f.Wire() + [];
    FrontFrame(f, []);
    assert Receive([], bufLen) == [];
    var s := f.Wire()[1..];
    assert s == [0, 1, 0, 0, 0, 2, 7, 0, 0, 0, 0, 9];
    assert s[2..6] == [0, 0, 0, 2];
    assert FromLe32([0, 0, 0, 2]) == 0x200_0000;
  }

  function Zeros(n: nat): (z: seq<byte>)
    ensures |z| == n && forall i :: 0 <= i < n ==> z[i] == 0
  {
    seq(n, _ => 0)
  }

  lemma ZeroHeader(rest: seq<byte>, bufLen: nat)
    ensures Receive(Zeros(12) + rest, bufLen) == Receive(rest, bufLen)
  {
    var f := Frame(Header(0, 0, 0, 0, 0), []);
    assert f.Wire() == Zeros(12);
    FrontFrame(f, rest);
  }

  /** A deadline after the header of a late challenge loses the packet behind it: the next call, still
      connected, starts in the key. */
  lemma DeadlineInChallengeLosesPacket(challenge: Frame, f: Frame, bufLen: nat)
    requires challenge == Frame(Header(0, 32, AUTH_CHALLENGE, 0, 0), Zeros(32))
    requires f == Frame(Header(0, 1, FORWARD, 7, 0), [9]) && bufLen >= 1
    ensures Spoils(challenge, HEADER_SIZE)
    ensures var r := ReceiveStep(challenge.Wire() + f.Wire(), HEADER_SIZE, bufLen);
            r.connected && Receive(r.rest, bufLen) == [] && EventsOf([challenge, f], bufLen) == [Packet(7, [9])]
  {
    StepOnFrame(challenge, f.Wire(), HEADER_SIZE, bufLen);
    var rest := (challenge.Wire() + f.Wire())[HEADER_SIZE..];
    assert rest == Zeros(12) + (Zeros(12) + (Zeros(8) + f.Wire()));
    ZeroHeader(Zeros(12) + (Zeros(8) + f.Wire()), bufLen);
    ZeroHeader(Zeros(8) + f.Wire(), bufLen);
    KeyRunsOut(f, bufLen);
    YieldsPacket(challenge, f, bufLen);
  }

  lemma YieldsPacket(challenge: Frame, f: Frame, bufLen: nat)
    requires challenge.h.cmd == AUTH_CHALLENGE && f == Frame(Header(0, 1, FORWARD, 7, 0), [9]) && bufLen >= 1
    ensures EventsOf([challenge, f], bufLen) == [Packet(7, [9])]
  {
    assert [challenge, f][1..] == [f] && [f][1..] == [];
    assert EventsOf([f], bufLen) == EventOf(f.h, f.payload, bufLen) + EventsOf([], bufLen);
  }

  lemma KeyRunsOut(f: Frame, bufLen: nat)
    requires f == Frame(Header(0, 1, FORWARD, 7, 0), [9])
    ensures Receive(Zeros(8) + f.Wire(), bufLen) == []
  {
    var s := Zeros(8) + f.Wire();
    assert f.Wire() == [0, 0] + [1, 0, 0, 0] + [FORWARD] + [7, 0, 0, 0] + [0] + [9];
    assert s[2..6] == [0, 0, 0, 0] && s[6] == 0;
    assert FromLe32([0, 0, 0, 0]) == 0;
    assert |s[HEADER_SIZE..]| == 9 && s[HEADER_SIZE..][0..] == s[HEADER_SIZE..];
  }
}
