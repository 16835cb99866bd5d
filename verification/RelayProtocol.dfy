/** The Ferry relay's wire format: a 12-byte little-endian header followed by the payload. */
module RelayProtocol {
  import opened Types

  const HEADER_SIZE: nat := 12
  const MAX_REGISTER_PAYLOAD: nat := 512
  const MAX_FORWARD_PAYLOAD: nat := 0x1_0000
  const MAX_PROBE_PAYLOAD: nat := 2048
  const AUTH_RESPONSE_PAYLOAD: nat := 64

  const REGISTER: byte := 1
  const FORWARD: byte := 2
  const KEEP_ALIVE: byte := 3
  const PROBE: byte := 4
  const AUTH_CHALLENGE: byte := 5
  const AUTH_RESPONSE: byte := 6

  datatype Header = Header(sn: uint16, payloadLen: uint32, cmd: byte, toId: uint32, reserved: byte)

  datatype Parsed = TooShort | Ok(h: Header)

  // ----- Little-endian words

  function Le16(n: uint16): (b: seq<byte>)
    ensures |b| == 2
  {
    [n % 0x100, n / 0x100]
  }

  function Le32(n: uint32): (b: seq<byte>)
    ensures |b| == 4
  {
    [n % 0x100, n / 0x100 % 0x100, n / 0x1_0000 % 0x100, n / 0x100_0000]
  }

  function FromLe16(b: seq<byte>): (n: uint16)
    requires |b| == 2
    ensures Le16(n) == b
  {
    var x: nat, y: nat := b[0], b[1];
    x + 0x100 * y
  }

  function FromLe32(b: seq<byte>): (n: uint32)
    requires |b| == 4
    ensures Le32(n) == b
  {
    Le32Digits(b[0], b[1], b[2], b[3]);
    var w: nat, x: nat, y: nat, z: nat := b[0], b[1], b[2], b[3];
    w + 0x100 * x + 0x1_0000 * y + 0x100_0000 * z
  }

  lemma Le32Digits(a: nat, b: nat, c: nat, d: nat)
    requires a < 0x100 && b < 0x100 && c < 0x100 && d < 0x100
    ensures var n := a + 0x100 * b + 0x1_0000 * c + 0x100_0000 * d;
            n < 0x1_0000_0000 && n % 0x100 == a && n / 0x100 % 0x100 == b
            && n / 0x1_0000 % 0x100 == c && n / 0x100_0000 == d
  {
    var n := a + 0x100 * b + 0x1_0000 * c + 0x100_0000 * d;
    assert n / 0x100 == b + 0x100 * c + 0x1_0000 * d;
    assert n / 0x1_0000 == c + 0x100 * d;
  }

  lemma Le32Sum(n: uint32)
    ensures n == n % 0x100 + 0x100 * (n / 0x100 % 0x100) + 0x1_0000 * (n / 0x1_0000 % 0x100) + 0x100_0000 * (n / 0x100_0000)
  {
    var q := n / 0x100;
    var r := q / 0x100;
    assert r == n / 0x1_0000 && r / 0x100 == n / 0x100_0000;
    assert q == 0x100 * r + q % 0x100 && r == 0x100 * (r / 0x100) + r % 0x100;
  }

  lemma Le32Unique(m: uint32, n: uint32)
    requires Le32(m) == Le32(n)
    ensures m == n
  {
    Le32Sum(m);
    Le32Sum(n);
    assert Le32(m)[0] == Le32(n)[0] && Le32(m)[1] == Le32(n)[1];
    assert Le32(m)[2] == Le32(n)[2] && Le32(m)[3] == Le32(n)[3];
  }

  // ----- Header codec

  function Marshal(h: Header): (b: seq<byte>)
    ensures |b| == HEADER_SIZE
  {
    Le16(h.sn) + Le32(h.payloadLen) + [h.cmd] + Le32(h.toId) + [h.reserved]
  }

  function Unmarshal(data: seq<byte>): Parsed {
    if |data| < HEADER_SIZE then TooShort
    else Ok(Header(FromLe16(data[0..2]), FromLe32(data[2..6]), data[6], FromLe32(data[7..11]), data[11]))
  }

  /** A 32-bit field in little-endian order at `at`. */
  predicate Le32At(b: seq<byte>, at: nat, n: nat) {
    at + 3 < |b| && Digits(b[at], b[at + 1], b[at + 2], b[at + 3]) == n
  }

  function Digits(a: nat, b: nat, c: nat, d: nat): nat {
    a + 0x100 * b + 0x1_0000 * c + 0x100_0000 * d
  }

  lemma Le32Spells(n: uint32)
    ensures Le32At(Le32(n), 0, n)
  {
    Le32Sum(n);
  }

  /** The bytes of a header: where each field stands, low byte first. */
  lemma HeaderLayout(h: Header)
    ensures var b := Marshal(h);
            && Digits(b[0], b[1], 0, 0) == h.sn && Le32At(b, 2, h.payloadLen) && b[6] == h.cmd
            && Le32At(b, 7, h.toId) && b[11] == h.reserved
  {
    var b := Marshal(h);
    Le32Spells(h.payloadLen);
    Le32Spells(h.toId);
    assert b[0..2] == Le16(h.sn) && b[2..6] == Le32(h.payloadLen) && b[7..11] == Le32(h.toId);
    assert forall k :: 0 <= k < 4 ==> b[2 + k] == Le32(h.payloadLen)[k] && b[7 + k] == Le32(h.toId)[k];
  }

  /** Decoding undoes encoding, whatever follows the header. */
  lemma UnmarshalMarshal(h: Header, rest: seq<byte>)
    ensures Unmarshal(Marshal(h) + rest) == Ok(h)
  {
    var b := Marshal(h) + rest;
    assert b[0..2] == Le16(h.sn) && b[2..6] == Le32(h.payloadLen);
    assert b[7..11] == Le32(h.toId) && b[6] == h.cmd && b[11] == h.reserved;
    Le32Unique(FromLe32(b[2..6]), h.payloadLen);
    Le32Unique(FromLe32(b[7..11]), h.toId);
  }

  /** Encoding undoes decoding, and only short data fails to decode. */
  lemma MarshalUnmarshal(data: seq<byte>)
    ensures Unmarshal(data).Ok? <==> |data| >= HEADER_SIZE
    ensures |data| >= HEADER_SIZE ==> Marshal(Unmarshal(data).h) == data[..HEADER_SIZE]
  {
    if |data| >= HEADER_SIZE {
      var b := Marshal(Unmarshal(data).h);
      assert b == data[0..2] + data[2..6] + [data[6]] + data[7..11] + [data[11]];
    }
  }

  /** Writes the header over the first bytes of a larger buffer. */
  method MarshalInto(h: Header, buf: array<byte>)
    requires buf.Length >= HEADER_SIZE
    modifies buf
    ensures buf[..] == Marshal(h) + old(buf[HEADER_SIZE..])
  {
    var b := Le16(h.sn);
    buf[0], buf[1] := b[0], b[1];
    b := Le32(h.payloadLen);
    buf[2], buf[3], buf[4], buf[5] := b[0], b[1], b[2], b[3];
    buf[6] := h.cmd;
    b := Le32(h.toId);
    buf[7], buf[8], buf[9], buf[10] := b[0], b[1], b[2], b[3];
    buf[11] := h.reserved;
    assert buf[..HEADER_SIZE] == Marshal(h);
    assert buf[..] == buf[..HEADER_SIZE] + buf[HEADER_SIZE..];
  }

  // ----- Frames

  datatype Frame = Frame(h: Header, payload: seq<byte>) {
    predicate Wf() { h.payloadLen == |payload| }

    function Wire(): seq<byte> { Marshal(h) + payload }
  }

  predicate AllWf(fs: seq<Frame>) {
    forall i :: 0 <= i < |fs| ==> fs[i].Wf()
  }

  function Concat(fs: seq<Frame>): seq<byte> {
    if fs == [] then [] else fs[0].Wire() + Concat(fs[1..])
  }

  lemma {:induction false} ConcatAppend(fs: seq<Frame>, gs: seq<Frame>)
    ensures Concat(fs + gs) == Concat(fs) + Concat(gs)
  {
    if fs == [] {
      assert fs + gs == gs;
    } else {
      assert (fs + gs)[1..] == fs[1..] + gs;
      ConcatAppend(fs[1..], gs);
    }
  }

  /** What is left of a frame when the stream ends inside it. */
  predicate CutFrame(tail: seq<byte>, f: Frame) {
    f.Wf() && |tail| < |f.Wire()| && tail == f.Wire()[..|tail|]
  }

  /** Reading one whole frame off the front of a stream. */
  lemma FrontFrame(f: Frame, rest: seq<byte>)
    requires f.Wf()
    ensures var s := f.Wire() + rest;
            && Unmarshal(s) == Ok(f.h) && |s| >= HEADER_SIZE + f.h.payloadLen
            && s[HEADER_SIZE..HEADER_SIZE + f.h.payloadLen] == f.payload
            && s[..HEADER_SIZE + f.h.payloadLen] == f.Wire()
            && s[HEADER_SIZE + f.h.payloadLen..] == rest && s[HEADER_SIZE..] == f.payload + rest
  {
    var s := f.Wire() + rest;
    assert s == Marshal(f.h) + (f.payload + rest);
    UnmarshalMarshal(f.h, f.payload + rest);
  }

  lemma CutHeader(tail: seq<byte>, f: Frame)
    requires CutFrame(tail, f) && |tail| >= HEADER_SIZE
    ensures Unmarshal(tail) == Ok(f.h) && |tail| < HEADER_SIZE + f.h.payloadLen
  {
    assert tail == Marshal(f.h) + f.Wire()[HEADER_SIZE..|tail|];
    UnmarshalMarshal(f.h, f.Wire()[HEADER_SIZE..|tail|]);
  }

  // ----- Sender stamping

  function Stamped(frame: seq<byte>, from: nat): (out: seq<byte>)
    requires |frame| >= HEADER_SIZE
    ensures |out| == |frame|
  {
    frame[..7] + Le32(from % 0x1_0000_0000) + frame[11..]
  }

  /** Stamping a frame changes its address field to the sender and nothing else. */
  lemma StampedIsFrame(f: Frame, from: nat)
    ensures Stamped(f.Wire(), from) == f.(h := f.h.(toId := from % 0x1_0000_0000)).Wire()
  {
    var w := f.Wire();
    assert w[..7] == Le16(f.h.sn) + Le32(f.h.payloadLen) + [f.h.cmd];
    assert w[11..] == [f.h.reserved] + f.payload;
  }

  method StampSender(frame: array<byte>, from: nat)
    requires frame.Length >= HEADER_SIZE
    modifies frame
    ensures frame[..] == Stamped(old(frame[..]), from)
  {
    var b := Le32(from % 0x1_0000_0000);
    frame[7], frame[8], frame[9], frame[10] := b[0], b[1], b[2], b[3];
  }
}
