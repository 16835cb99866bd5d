/** Packets the engine synthesizes: ICMPv6 errors and DNS replies, with their one's-complement
    checksums (RFC 1071; sections 2.3 and 2.4 of RFC 4443; section 8.1 of RFC 8200; RFC 768). */
module Packets {
  import opened Types

  // ----- One's-complement sums

  /** The sum of the big-endian 16-bit words; an odd last byte is a high byte. */
  function WordSum(b: seq<byte>): nat {
    if |b| == 0 then 0
    else if |b| == 1 then High(b[0])
    else Word(b[0], b[1]) + WordSum(b[2..])
  }

  function High(hi: byte): nat {
    var h: nat := hi;
    0x100 * h
  }

  function Word(hi: byte, lo: byte): (w: nat)
    ensures w < 0x1_0000
  {
    High(hi) + lo
  }

  /** The one's-complement value of a sum: what is left after casting out 0xFFFF, in 1 .. 0xFFFF but
      for an empty sum. */
  function Fold(n: nat): (f: uint16)
    ensures n > 0 ==> f > 0
  {
    if n <= 0xFFFF then n else Fold(n - 0xFFFF)
  }

  lemma {:induction false} FoldShift(n: nat, k: nat)
    requires n > 0
    ensures Fold(n + 0xFFFF * k) == Fold(n)
  {
    if k > 0 {
      FoldShift(n, k - 1);
      assert n + 0xFFFF * k - 0xFFFF == n + 0xFFFF * (k - 1);
    }
  }

  /** Adding the carries back in keeps the value. */
  lemma FoldOnce(n: nat)
    requires n >= 0x1_0000
    ensures Fold(n % 0x1_0000 + n / 0x1_0000) == Fold(n) && n % 0x1_0000 + n / 0x1_0000 < n
  {
    var m := n % 0x1_0000 + n / 0x1_0000;
    assert n == m + 0xFFFF * (n / 0x1_0000);
    FoldShift(m, n / 0x1_0000);
  }

  /** The checksum field: the complement of the folded sum. */
  function Complement(n: nat): (c: uint16)
  {
    0xFFFF - Fold(n)
  }

  /** A packet whose sum includes its checksum verifies. */
  lemma {:induction false} ComplementVerifies(n: nat)
    ensures Fold(n + Complement(n)) == 0xFFFF
  {
    if n > 0xFFFF {
      ComplementVerifies(n - 0xFFFF);
      FoldShift(n - 0xFFFF + Complement(n), 1);
    }
  }

  lemma {:induction false} WordSumBound(b: seq<byte>)
    ensures WordSum(b) <= 0x1_0000 * ((|b| + 1) / 2)
  {
    if |b| >= 2 { WordSumBound(b[2..]); }
  }

  lemma {:induction false} WordSumConcat(a: seq<byte>, b: seq<byte>)
    requires |a| % 2 == 0
    ensures WordSum(a + b) == WordSum(a) + WordSum(b)
  {
    if a == [] {
      assert a + b == b;
    } else {
      assert (a + b)[2..] == a[2..] + b;
      WordSumConcat(a[2..], b);
    }
  }

  /** `b` with the word at `at` zeroed. */
  function Blanked(b: seq<byte>, at: nat): (c: seq<byte>)
    requires at + 1 < |b|
    ensures |c| == |b|
  {
    b[at := 0][at + 1 := 0]
  }

  lemma {:induction false} WordSumBlanked(b: seq<byte>, at: nat)
    requires at % 2 == 0 && at + 1 < |b|
    ensures WordSum(b) == WordSum(Blanked(b, at)) + Word(b[at], b[at + 1])
  {
    if at == 0 {
      assert Blanked(b, 0)[2..] == b[2..];
    } else {
      WordSumBlanked(b[2..], at - 2);
      assert Blanked(b, at)[2..] == Blanked(b[2..], at - 2);
    }
  }

  /** The word at `at` is the checksum of everything else in `b`, and of `extra`. */
  predicate Checksummed(b: seq<byte>, at: nat, extra: nat) {
    at + 1 < |b| && Word(b[at], b[at + 1]) == Complement(extra + WordSum(Blanked(b, at)))
  }

  /** A receiver that sums it all, checksum included, gets all ones. */
  lemma ChecksummedVerifies(b: seq<byte>, at: nat, extra: nat)
    requires at % 2 == 0 && Checksummed(b, at, extra)
    ensures Fold(extra + WordSum(b)) == 0xFFFF
  {
    WordSumBlanked(b, at);
    ComplementVerifies(extra + WordSum(Blanked(b, at)));
  }

  lemma VerifiesBehind(pseudo: seq<byte>, b: seq<byte>, at: nat)
    requires |pseudo| % 2 == 0 && at % 2 == 0 && Checksummed(b, at, WordSum(pseudo))
    ensures Fold(WordSum(pseudo + b)) == 0xFFFF
  {
    WordSumConcat(pseudo, b);
    ChecksummedVerifies(b, at, WordSum(pseudo));
  }

  // ----- What verifying means

  /** The bytes as one big-endian number. */
  function Number(b: seq<byte>): nat {
    if b == [] then 0 else 0x100 * Number(b[..|b|-1]) + b[|b|-1]
  }

  lemma NumberLastWord(b: seq<byte>)
    requires |b| >= 2
    ensures Number(b) == 0x1_0000 * Number(b[..|b|-2]) + Word(b[|b|-2], b[|b|-1])
  {
    var c := b[..|b|-1];
    assert c[..|c|-1] == b[..|b|-2] && c[|c|-1] == b[|b|-2];
  }

  lemma {:induction false} SumIsNumber(b: seq<byte>) returns (k: nat)
    requires |b| % 2 == 0
    ensures Number(b) == WordSum(b) + 0xFFFF * k
  {
    if b == [] { return 0; }
    var init, last := b[..|b|-2], b[|b|-2..];
    var j := SumIsNumber(init);
    assert b == init + last && last[2..] == [];
    WordSumConcat(init, last);
    NumberLastWord(b);
    k := Number(init) + j;
  }

  lemma {:induction false} ModShift(n: nat, k: nat)
    ensures (n + 0xFFFF * k) % 0xFFFF == n % 0xFFFF
  {
    if k > 0 {
      ModShift(n, k - 1);
      assert n + 0xFFFF * k == n + 0xFFFF * (k - 1) + 0xFFFF;
    }
  }

  /** In elementary terms: the words of `b` sum to all ones exactly when `b`, read as one big-endian number, is a
      multiple of 0xFFFF other than zero. */
  lemma VerifiesIffDivisible(b: seq<byte>)
    requires |b| % 2 == 0
    ensures Fold(WordSum(b)) == 0xFFFF <==> Number(b) % 0xFFFF == 0 && WordSum(b) > 0
  {
    var n := WordSum(b);
    var k := SumIsNumber(b);
    ModShift(n, k);
    if n > 0 { ZeroChecksum(n); }
  }

  lemma WordSumStep(b: seq<byte>, i: nat)
    requires i < |b|
    ensures i + 1 < |b| ==> WordSum(b[i..]) == Word(b[i], b[i + 1]) + WordSum(b[i + 2..])
    ensures i + 1 == |b| ==> WordSum(b[i..]) == High(b[i])
  {
    if i + 1 < |b| { assert b[i..][2..] == b[i + 2..]; }
  }

  lemma NoWrap(n: nat)
    requires n < 0x1_0000_0000
    ensures n % 0x1_0000_0000 == n
  {}

  /** The summing loop, in 32-bit arithmetic; it does not wrap. */
  method AddWords(sum: nat, b: seq<byte>) returns (total: nat)
    requires sum + 0x1_0000 * ((|b| + 1) / 2) < 0x1_0000_0000
    ensures total == sum + WordSum(b)
  {
    WordSumBound(b);
    total := sum;
    var i := 0;
    assert b[0..] == b;
    while i + 1 < |b|
      invariant i <= |b| && i % 2 == 0
      invariant total + WordSum(b[i..]) == sum + WordSum(b)
      decreases |b| - i
    {
      WordSumStep(b, i);
      NoWrap(total + Word(b[i], b[i + 1]));
      total := (total + Word(b[i], b[i + 1])) % 0x1_0000_0000;
      i := i + 2;
    }
    if |b| % 2 == 1 {
      WordSumStep(b, i);
      NoWrap(total + High(b[|b| - 1]));
      total := (total + High(b[|b| - 1])) % 0x1_0000_0000;
    }
  }

  /** The folding loop. */
  method FoldDown(sum: nat) returns (folded: uint16)
    ensures folded == Fold(sum)
  {
    var n := sum;
    while n / 0x1_0000 != 0
      invariant Fold(n) == Fold(sum)
      decreases n
    {
      FoldOnce(n);
      n := n % 0x1_0000 + n / 0x1_0000;
    }
    return n;
  }

  /** The bytes of `s` stand in `b` from position `pos` on. */
  predicate At(b: seq<byte>, pos: nat, s: seq<byte>) {
    pos + |s| <= |b| && forall k :: 0 <= k < |s| ==> b[pos + k] == s[k]
  }

  /** Big-endian store of a 16-bit word. */
  method PutWord(a: array<byte>, at: nat, n: uint16)
    requires at + 1 < a.Length
    modifies a
    ensures Word(a[at], a[at + 1]) == n
    ensures forall i :: 0 <= i < a.Length && i != at && i != at + 1 ==> a[i] == old(a[i])
  {
    a[at], a[at + 1] := n / 0x100, n % 0x100;
  }

  method CopyInto(a: array<byte>, at: nat, b: seq<byte>)
    requires at + |b| <= a.Length
    modifies a
    ensures forall i :: at <= i < at + |b| ==> a[i] == b[i - at]
    ensures forall i :: 0 <= i < a.Length && !(at <= i < at + |b|) ==> a[i] == old(a[i])
  {
    forall i | at <= i < at + |b| { a[i] := b[i - at]; }
  }

  /** Computes and stores the checksum of `a[lo..hi]` plus `extra` in the zeroed word `at` of it. */
  method PutChecksum(a: array<byte>, lo: nat, hi: nat, at: nat, extra: nat)
    requires lo + at + 1 < hi <= a.Length && a[lo + at] == 0 && a[lo + at + 1] == 0
    requires extra + 0x1_0000 * ((hi - lo + 1) / 2) < 0x1_0000_0000
    modifies a
    ensures Checksummed(a[lo..hi], at, extra)
    ensures forall i :: 0 <= i < a.Length && i != lo + at && i != lo + at + 1 ==> a[i] == old(a[i])
  {
    ghost var before := a[lo..hi];
    var sum := AddWords(extra, a[lo..hi]);
    var folded := FoldDown(sum);
    PutWord(a, lo + at, 0xFFFF - folded);
    assert Blanked(a[lo..hi], at) == before;
  }

  // ----- ICMPv6 Destination Unreachable

  const ICMPV6: byte := 58
  const MAX_PACKET: nat := 1280
  const IP6_HEADER: nat := 40
  const ICMP6_HEADER: nat := 8

  /** The sum over the IPv6 pseudo-header of a message whose length fits one word. */
  function Pseudo6(src: seq<byte>, dst: seq<byte>, len: uint16): nat
    requires |src| == 16 && |dst| == 16
  {
    WordSum(src) + WordSum(dst) + (len + ICMPV6)
  }

  method PseudoSum6(src: seq<byte>, dst: seq<byte>, len: uint16) returns (sum: nat)
    requires |src| == 16 && |dst| == 16
    ensures sum == Pseudo6(src, dst, len) < 0x20_0000
  {
    WordSumBound(src);
    WordSumBound(dst);
    sum := AddWords(0, src);
    sum := AddWords(sum, dst);
    var tail := new byte[8](_ => 0);
    PutWord(tail, 2, len);
    tail[7] := ICMPV6;
    TailSum(tail[..], len);
    sum := AddWords(sum, tail[..]);
  }

  lemma TailSum(tail: seq<byte>, len: uint16)
    requires |tail| == 8 && Word(tail[2], tail[3]) == len
    requires tail[0] == 0 && tail[1] == 0 && tail[4] == 0 && tail[5] == 0 && tail[6] == 0 && tail[7] == ICMPV6
    ensures WordSum(tail) == len + ICMPV6
  {
    assert WordSum(tail[6..]) == ICMPV6;
    assert tail[4..][2..] == tail[6..] && WordSum(tail[4..]) == ICMPV6;
    assert tail[2..][2..] == tail[4..] && WordSum(tail[2..]) == len + ICMPV6;
  }

  function Quote(invoking: seq<byte>): seq<byte> {
    if |invoking| > MAX_PACKET - IP6_HEADER - ICMP6_HEADER
    then invoking[..MAX_PACKET - IP6_HEADER - ICMP6_HEADER] else invoking
  }

  /** An IPv6 header for an ICMPv6 message. */
  predicate IsIp6Header(h: seq<byte>, len: nat, src: seq<byte>, dst: seq<byte>) {
    && |h| == 40 && |src| == 16 && |dst| == 16
    && h[0] == 0x60 && h[1] == 0 && h[2] == 0 && h[3] == 0 && Word(h[4], h[5]) == len && h[6] == ICMPV6 && h[7] == 64
    && At(h, 8, src) && At(h, 24, dst)
  }

  /** A Destination Unreachable message, no route, quoting `quote`. */
  predicate IsNoRoute(m: seq<byte>, quote: seq<byte>, pseudo: nat) {
    && |m| == 8 + |quote| && m[0] == 1 && m[1] == 0 && (forall i :: 4 <= i < 8 ==> m[i] == 0)
    && At(m, 8, quote) && Checksummed(m, 2, pseudo)
  }

  /** The error for `invoking`: its addresses and type, the quote, the lengths and the checksum. */
  predicate IsUnreachable(out: seq<byte>, gw: seq<byte>, dst: seq<byte>, invoking: seq<byte>) {
    && 48 <= |out| <= MAX_PACKET && |gw| == 16 && |dst| == 16
    && IsIp6Header(out[..40], |out| - 40, gw, dst)
    && IsNoRoute(out[40..], Quote(invoking), Pseudo6(gw, dst, |out| - 40))
  }

  method FillIp6(a: array<byte>, gw: seq<byte>, dst: seq<byte>)
    requires 40 <= a.Length < 0x1_0000 && |gw| == 16 && |dst| == 16
    requires forall i :: 0 <= i < a.Length ==> a[i] == 0
    modifies a
    ensures IsIp6Header(a[..40], a.Length - 40, gw, dst)
    ensures forall i :: 40 <= i < a.Length ==> a[i] == 0
  {
    a[0] := 0x60;
    PutWord(a, 4, a.Length - 40);
    a[6], a[7] := ICMPV6, 64;
    CopyInto(a, 8, gw);
    CopyInto(a, 24, dst);
  }

  method FillNoRoute(a: array<byte>, quote: seq<byte>, pseudo: nat)
    requires a.Length == 48 + |quote| <= MAX_PACKET && pseudo < 0x20_0000
    requires forall i :: 40 <= i < a.Length ==> a[i] == 0
    modifies a
    ensures IsNoRoute(a[40..], quote, pseudo)
    ensures forall i :: 0 <= i < 40 ==> a[i] == old(a[i])
  {
    a[40] := 1;
    a[41] := 0;
    CopyInto(a, 48, quote);
    PutChecksum(a, 40, a.Length, 2, pseudo);
    assert a[40..a.Length] == a[40..];
  }

  method BuildICMPv6Unreachable(gw: seq<byte>, dst: seq<byte>, invoking: seq<byte>) returns (out: seq<byte>)
    requires |gw| == 16 && |dst| == 16
    ensures IsUnreachable(out, gw, dst, invoking)
  {
    var quote := invoking;
    if |quote| > MAX_PACKET - IP6_HEADER - ICMP6_HEADER {
      quote := quote[..MAX_PACKET - IP6_HEADER - ICMP6_HEADER];
    }
    var msgLen := ICMP6_HEADER + |quote|;
    var a := new byte[IP6_HEADER + msgLen](_ => 0);
    FillIp6(a, gw, dst);
    ghost var header := a[..40];
    var pseudo := PseudoSum6(gw, dst, msgLen);
    FillNoRoute(a, quote, pseudo);
    assert a[..40] == header;
    out := a[..];
    assert out[..40] == a[..40] && out[40..] == a[40..];
  }

  const GATEWAY: seq<byte> := [0xFD, 0x6C, 0x72, 0x70, 0x6C, 0x74, 0, 0, 0, 0, 0, 0, 0, 0, 0, 1]

  /** Packets that get an answer: IPv6 between global unicast addresses, and not an ICMPv6 error. */
  predicate Answerable(packet: seq<byte>, global: seq<byte> -> bool) {
    && |packet| >= IP6_HEADER && packet[0] / 16 == 6
    && global(packet[8..24]) && global(packet[24..40])
    && !(packet[6] == ICMPV6 && |packet| > IP6_HEADER && packet[IP6_HEADER] < 128)
  }

  /** An empty reply means none. */
  method Icmp6ReplyFor(packet: seq<byte>, global: seq<byte> -> bool) returns (reply: seq<byte>)
    ensures Answerable(packet, global) ==> IsUnreachable(reply, GATEWAY, packet[8..24], packet)
    ensures reply != [] <==>
            && |packet| >= 40 && packet[0] / 16 == 6 && global(packet[8..24]) && global(packet[24..40])
            && !(packet[6] == 58 && |packet| > 40 && packet[40] < 128)
  {
    reply := [];
    if |packet| < IP6_HEADER || packet[0] / 16 != 6 { return; }
    if !global(packet[24..40]) || !global(packet[8..24]) { return; }
    if packet[6] == ICMPV6 && |packet| > IP6_HEADER && packet[IP6_HEADER] < 128 { return; }
    reply := BuildICMPv6Unreachable(GATEWAY, packet[8..24], packet);
  }

  /** The pseudo-header a receiver makes of the packet's own fields sums to the one the sender summed. */
  lemma Pseudo6Bytes(src: seq<byte>, dst: seq<byte>, hi: byte, lo: byte)
    requires |src| == 16 && |dst| == 16
    ensures WordSum(src + dst + [0, 0, hi, lo, 0, 0, 0, 58]) == Pseudo6(src, dst, Word(hi, lo))
  {
    var tail: seq<byte> := [0, 0, hi, lo, 0, 0, 0, 58];
    WordSumConcat(src, dst);
    WordSumConcat(src + dst, tail);
    TailSum(tail, Word(hi, lo));
  }

  lemma Icmp6Verifies(src: seq<byte>, dst: seq<byte>, hi: byte, lo: byte, m: seq<byte>)
    requires |src| == 16 && |dst| == 16 && Word(hi, lo) == |m| && Checksummed(m, 2, Pseudo6(src, dst, |m|))
    ensures Fold(WordSum(src + dst + [0, 0, hi, lo, 0, 0, 0, 58] + m)) == 0xFFFF
  {
    var pseudo := src + dst + [0, 0, hi, lo, 0, 0, 0, 58];
    assert |pseudo| == 40;
    assert WordSum(pseudo) == Pseudo6(src, dst, |m|) by { Pseudo6Bytes(src, dst, hi, lo); }
    VerifiesBehind(pseudo, m, 2);
  }

  /** A receiver that takes addresses and length from the packet's own header, next header 58, finds the checksum
      right. */
  lemma UnreachableVerifies(out: seq<byte>, gw: seq<byte>, dst: seq<byte>, invoking: seq<byte>)
    requires IsUnreachable(out, gw, dst, invoking)
    ensures Fold(WordSum(out[8..24] + out[24..40] + [0, 0, out[4], out[5], 0, 0, 0, 58] + out[40..])) == 0xFFFF
  {
    HeaderSlices(out, gw, dst);
    Icmp6Verifies(gw, dst, out[4], out[5], out[40..]);
  }

  lemma HeaderSlices(out: seq<byte>, gw: seq<byte>, dst: seq<byte>)
    requires 40 <= |out| && IsIp6Header(out[..40], |out| - 40, gw, dst)
    ensures out[8..24] == gw && out[24..40] == dst && Word(out[4], out[5]) == |out| - 40
  {
    var h := out[..40];
    assert h[8..24] == gw && h[24..40] == dst && h[4] == out[4] && h[5] == out[5];
    assert out[8..24] == h[8..24] && out[24..40] == h[24..40];
  }

  /** A reply is never itself answered, so errors cannot loop, and it quotes all of a packet that leaves
      room for the headers. */
  lemma RepliesAreNotAnswered(reply: seq<byte>, gw: seq<byte>, dst: seq<byte>, packet: seq<byte>, global: seq<byte> -> bool)
    requires IsUnreachable(reply, gw, dst, packet)
    ensures !Answerable(reply, global)
    ensures |packet| <= 1232 ==> reply[48..] == packet
    ensures |packet| > 1232 ==> |reply| == 1280 && reply[48..] == packet[..1232]
  {
    assert reply[6] == reply[..40][6] && reply[40] == reply[40..][0];
    assert reply[48..] == reply[40..][8..];
    assert reply[48..] == Quote(packet);
  }

  // ----- UDP replies over IPv4

  /** The sum over the IPv4 pseudo-header of a UDP datagram of `len` bytes. */
  function Pseudo4(src: seq<byte>, dst: seq<byte>, len: nat): nat
    requires |src| == 4 && |dst| == 4
  {
    WordSum(src) + WordSum(dst) + 17 + len
  }

  /** What a 16-bit length field keeps of a length. */
  function Low16(n: nat): uint16 {
    n % 0x1_0000
  }

  /** Beyond any DNS message, and small enough for 32-bit sums. */
  const MAX_REPLY: nat := 0x1_F000

  /** The fields of an option-less IPv4 header for UDP: no fragmentation, 64 hops. */
  predicate IpFields(h: seq<byte>, id: seq<byte>, field: nat, src: seq<byte>, dst: seq<byte>) {
    && |h| == 20 && h[0] == 0x45 && h[1] == 0 && Word(h[2], h[3]) == field && At(h, 4, id) && |id| == 2
    && h[6] == 0x40 && h[7] == 0 && h[8] == 64 && h[9] == 17 && At(h, 12, src) && At(h, 16, dst)
    && |src| == 4 && |dst| == 4
  }

  predicate IsIpHeader(h: seq<byte>, id: seq<byte>, total: nat, src: seq<byte>, dst: seq<byte>) {
    IpFields(h, id, Low16(total), src, dst) && Checksummed(h, 10, 0)
  }

  /** Ports, length field and payload of a UDP datagram. */
  predicate UdpFields(u: seq<byte>, srcPort: nat, dstPort: nat, field: nat, payload: seq<byte>) {
    && |u| == 8 + |payload| && At(u, 8, payload)
    && Word(u[0], u[1]) == srcPort && Word(u[2], u[3]) == dstPort && Word(u[4], u[5]) == field
  }

  predicate IsUdp(u: seq<byte>, src: seq<byte>, dst: seq<byte>, srcPort: nat, dstPort: nat, payload: seq<byte>) {
    && |src| == 4 && |dst| == 4 && UdpFields(u, srcPort, dstPort, Low16(|u|), payload)
    && Checksummed(u, 6, Pseudo4(src, dst, |u|))
  }

  method FillIpFields(a: array<byte>, id: seq<byte>, field: uint16, src: seq<byte>, dst: seq<byte>)
    requires 20 <= a.Length && |id| == 2 && |src| == 4 && |dst| == 4
    requires forall i :: 0 <= i < a.Length ==> a[i] == 0
    modifies a
    ensures IpFields(a[..20], id, field, src, dst) && a[10] == 0 && a[11] == 0
    ensures forall i :: 20 <= i < a.Length ==> a[i] == 0
  {
    a[0] := 0x45;
    PutWord(a, 2, field);
    CopyInto(a, 4, id);
    a[6], a[7] := 0x40, 0x00;
    a[8] := 64;
    a[9] := 17;
    CopyInto(a, 12, src);
    CopyInto(a, 16, dst);
  }

  /** Only the checksum word differs. */
  lemma IpFieldsKept(h: seq<byte>, g: seq<byte>, id: seq<byte>, field: nat, src: seq<byte>, dst: seq<byte>)
    requires IpFields(h, id, field, src, dst)
    requires |g| == |h| && forall i :: 0 <= i < |h| && i != 10 && i != 11 ==> g[i] == h[i]
    ensures IpFields(g, id, field, src, dst)
  {}

  method FillIp(a: array<byte>, id: seq<byte>, src: seq<byte>, dst: seq<byte>)
    requires 20 <= a.Length && |id| == 2 && |src| == 4 && |dst| == 4
    requires forall i :: 0 <= i < a.Length ==> a[i] == 0
    modifies a
    ensures IsIpHeader(a[..20], id, a.Length, src, dst)
    ensures forall i :: 20 <= i < a.Length ==> a[i] == 0
  {
    var field := Low16(a.Length);
    FillIpFields(a, id, field, src, dst);
    ghost var h := a[..20];
    PutChecksum(a, 0, 20, 10, 0);
    assert a[0..20] == a[..20];
    IpFieldsKept(h, a[..20], id, field, src, dst);
  }

  method FillUdpFields(a: array<byte>, ihl: nat, srcPort: uint16, dstPort: uint16, field: uint16, payload: seq<byte>)
    requires ihl >= 20 && a.Length == ihl + 8 + |payload|
    requires forall i :: 20 <= i < a.Length ==> a[i] == 0
    modifies a
    ensures UdpFields(a[ihl..], srcPort, dstPort, field, payload) && a[ihl + 6] == 0 && a[ihl + 7] == 0
    ensures forall i :: 0 <= i < ihl ==> a[i] == old(a[i])
  {
    PutWord(a, ihl, srcPort);
    PutWord(a, ihl + 2, dstPort);
    PutWord(a, ihl + 4, field);
    CopyInto(a, ihl + 8, payload);
  }

  /** Only the checksum word differs. */
  lemma FieldsKept(u: seq<byte>, v: seq<byte>, srcPort: nat, dstPort: nat, field: nat, payload: seq<byte>)
    requires UdpFields(u, srcPort, dstPort, field, payload)
    requires |v| == |u| && forall i :: 0 <= i < |u| && i != 6 && i != 7 ==> v[i] == u[i]
    ensures UdpFields(v, srcPort, dstPort, field, payload)
  {}

  method FillUdp(a: array<byte>, ihl: nat, src: seq<byte>, dst: seq<byte>,
                 srcPort: uint16, dstPort: uint16, payload: seq<byte>)
    requires ihl >= 20 && a.Length == ihl + 8 + |payload| <= MAX_REPLY && |src| == 4 && |dst| == 4
    requires forall i :: 20 <= i < a.Length ==> a[i] == 0
    modifies a
    ensures IsUdp(a[ihl..], src, dst, srcPort, dstPort, payload)
    ensures forall i :: 0 <= i < ihl ==> a[i] == old(a[i])
  {
    var field := Low16(8 + |payload|);
    FillUdpFields(a, ihl, srcPort, dstPort, field, payload);
    ghost var u := a[ihl..];
    var pseudo := PseudoSum4(src, dst, 8 + |payload|);
    PutChecksum(a, ihl, a.Length, 6, pseudo);
    assert a[ihl..a.Length] == a[ihl..];
    FieldsKept(u, a[ihl..], srcPort, dstPort, field, payload);
  }

  method PseudoSum4(src: seq<byte>, dst: seq<byte>, len: nat) returns (sum: nat)
    requires |src| == 4 && |dst| == 4 && len <= MAX_REPLY
    ensures sum == Pseudo4(src, dst, len) < 0x10_0000
  {
    WordSumBound(src);
    WordSumBound(dst);
    sum := AddWords(0, src);
    sum := AddWords(sum, dst);
    sum := sum + 17;
    sum := sum + len;
  }

  /** The reply swaps addresses and ports and keeps the query's IP identifier. The source fills in the two
      checksums last; they do not overlap. */
  method SwapUDPReply(packet: seq<byte>, ihl: nat, srcIP: seq<byte>, dstIP: seq<byte>,
                      srcPort: uint16, dstPort: uint16, payload: seq<byte>) returns (resp: seq<byte>)
    requires |packet| >= 6 && |srcIP| == 4 && |dstIP| == 4 && ihl >= 20 && ihl + 8 + |payload| <= MAX_REPLY
    ensures |resp| == ihl + 8 + |payload|
    ensures IsIpHeader(resp[..20], packet[4..6], |resp|, dstIP, srcIP)
    ensures IsUdp(resp[ihl..], dstIP, srcIP, dstPort, srcPort, payload)
    ensures forall i :: 20 <= i < ihl ==> resp[i] == 0
  {
    var a := new byte[ihl + 8 + |payload|](_ => 0);
    FillIp(a, packet[4..6], dstIP, srcIP);
    ghost var header := a[..20];
    FillUdp(a, ihl, dstIP, srcIP, dstPort, srcPort, payload);
    assert a[..20] == header;
    resp := a[..];
    assert resp[ihl..] == a[ihl..] && resp[..20] == a[..20];
  }

  /** Lengths and ports are in network byte order. */
  lemma NetworkOrder(h: seq<byte>, id: seq<byte>, total: nat, u: seq<byte>, src: seq<byte>, dst: seq<byte>,
                     srcPort: nat, dstPort: nat, payload: seq<byte>)
    requires IsIpHeader(h, id, total, src, dst) && IsUdp(u, src, dst, srcPort, dstPort, payload)
    ensures Number(h[2..4]) == total % 0x1_0000 && Number(u[4..6]) == |u| % 0x1_0000
    ensures Number(u[0..2]) == srcPort && Number(u[2..4]) == dstPort && u[8..] == payload
  {
    NumberLastWord(h[2..4]);
    NumberLastWord(u[0..2]);
    NumberLastWord(u[2..4]);
    NumberLastWord(u[4..6]);
  }

  /** The length a header claims is the true one exactly for replies below 64 KiB. */
  lemma LengthsAreTruncated(h: seq<byte>, id: seq<byte>, total: nat, src: seq<byte>, dst: seq<byte>)
    requires IsIpHeader(h, id, total, src, dst)
    ensures Word(h[2], h[3]) == total <==> total < 0x1_0000
  {}

  /** Both checksums of a reply verify at its receiver. */
  lemma IpHeaderVerifies(h: seq<byte>, id: seq<byte>, total: nat, src: seq<byte>, dst: seq<byte>)
    requires IsIpHeader(h, id, total, src, dst)
    ensures Fold(WordSum(h)) == 0xFFFF
  {
    ChecksummedVerifies(h, 10, 0);
  }

  lemma {:induction false} FoldSucc(n: nat)
    requires n > 0 && Fold(n) == 0xFFFF
    ensures Fold(n + 1) == 1
  {
    if n > 0xFFFF { FoldSucc(n - 0xFFFF); }
  }

  lemma FieldFails(field: nat, sum: nat)
    requires field > 0 && sum == field + 0x1_0000 && Fold(sum) == 0xFFFF
    ensures Fold(field) != 0xFFFF
  {
    FoldShift(field + 1, 1);
    if Fold(field) == 0xFFFF { FoldSucc(field); }
  }

  lemma Pseudo4Bytes(src: seq<byte>, dst: seq<byte>, hi: byte, lo: byte)
    requires |src| == 4 && |dst| == 4
    ensures WordSum(src + dst + [0, 17, hi, lo]) == Pseudo4(src, dst, Word(hi, lo))
  {
    var tail: seq<byte> := [0, 17, hi, lo];
    WordSumConcat(src, dst);
    WordSumConcat(src + dst, tail);
    assert tail[2..] == [hi, lo] && [hi, lo][2..] == [] && WordSum([hi, lo]) == Word(hi, lo);
  }

  /** A receiver sums addresses, protocol 17 and the datagram's own length field in front of it, so the checksum
      verifies exactly below 64 KiB. */
  lemma UdpVerifiesByField(u: seq<byte>, src: seq<byte>, dst: seq<byte>, srcPort: nat, dstPort: nat, payload: seq<byte>)
    requires IsUdp(u, src, dst, srcPort, dstPort, payload) && |u| <= MAX_REPLY
    ensures Fold(WordSum(src + dst + [0, 17, u[4], u[5]] + u)) == 0xFFFF <==> |u| < 0x1_0000
  {
    var base := Pseudo4(src, dst, 0);
    Pseudo4Bytes(src, dst, u[4], u[5]);
    WordSumConcat(src + dst + [0, 17, u[4], u[5]], u);
    ChecksummedVerifies(u, 6, base + |u|);
    FieldVerifies(base + WordSum(u), |u|);
  }

  lemma FieldVerifies(rest: nat, len: nat)
    requires rest > 0 && len < 0x2_0000 && Fold(rest + len) == 0xFFFF
    ensures Fold(rest + Low16(len)) == 0xFFFF <==> len < 0x1_0000
  {
    if len >= 0x1_0000 { FieldFails(rest + Low16(len), rest + len); }
  }

  /** The header always claims a length of 20 bytes, so a receiver finds the datagram exactly when the
      query had no IP options. */
  lemma OptionsMisplaceTheDatagram(resp: seq<byte>, ihl: nat, udp: seq<byte>)
    requires 20 <= ihl && |resp| == ihl + |udp| && resp[ihl..] == udp && resp[0] == 0x45
    ensures resp[4 * (resp[0] % 16)..] == udp <==> ihl == 20
  {
    if ihl != 20 { assert |resp[20..]| != |udp|; }
  }

  /** A checksum that comes out as zero is sent as zero, which in UDP means "none". It does exactly when
      everything else sums to a multiple of 0xFFFF. */
  lemma {:induction false} ZeroChecksum(n: nat)
    requires n > 0
    ensures Complement(n) == 0 <==> n % 0xFFFF == 0
  {
    if n > 0xFFFF {
      ZeroChecksum(n - 0xFFFF);
      assert n % 0xFFFF == (n - 0xFFFF) % 0xFFFF;
    }
  }

  /** Any datagram whose payload starts with a zero word can be turned into one sent without a checksum,
      by putting its own checksum there. */
  lemma ZeroChecksumPayload(u: seq<byte>, v: seq<byte>, extra: nat)
    requires |u| == |v| >= 10 && extra > 0 && u[8] == 0 && u[9] == 0
    requires Checksummed(u, 6, extra) && Checksummed(v, 6, extra)
    requires v[8] == u[6] && v[9] == u[7] && v[..6] == u[..6] && v[10..] == u[10..]
    ensures Word(v[6], v[7]) == 0
  {
    var b, c := Blanked(u, 6), Blanked(v, 6);
    assert Blanked(c, 8) == b;
    WordSumBlanked(c, 8);
    ComplementVerifies(extra + WordSum(b));
  }
}
