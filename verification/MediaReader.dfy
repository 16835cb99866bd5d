/** Random access to a resource through one cached Range stream. */
module MediaReader {
  import opened Types

  /** How the server answers a Range request: not at all, or with a status and a body. */
  datatype Response = NoAnswer | Answer(status: int, body: seq<byte>)

  /** What happens while the body is read: nothing, or an error after some bytes. */
  datatype Fault = Fine | Broken(after: nat)

  datatype Handle = Handle(body: Option<seq<byte>>, pos: int, closing: bool, closed: bool)

  datatype Result = Failed | Read(data: seq<byte>)

  const FRESH := Handle(None, 0, false, false)

  /** Replaces the open stream by one starting at `offset`, if the server goes along. */
  function OpenAt(h: Handle, offset: int, resp: Response): Handle {
    var discarded := h.(body := None);
    if h.closing || resp.NoAnswer? then discarded
    else if resp.status != 206 && resp.status != 200 then discarded
    else if resp.status == 200 && offset > 0 then discarded
    else discarded.(body := Some(resp.body), pos := offset)
  }

  /** Reading `len` bytes off an open stream. */
  function ReadBody(h: Handle, len: nat, fault: Fault): (Handle, Result)
    requires h.body.Some?
  {
    var have := |h.body.value|;
    if fault.Broken? && fault.after < len && fault.after <= have then
      (h.(body := None, pos := h.pos + fault.after), Failed)
    else
      var n := if len <= have then len else have;
      (h.(body := Some(h.body.value[n..]), pos := h.pos + n), Read(h.body.value[..n]))
  }

  /** The handle with a stream at `offset`, reusing the open one when it is already there. */
  function Positioned(h: Handle, offset: int, resp: Response): Handle {
    if h.body.None? || h.pos != offset then OpenAt(h, offset, resp) else h
  }

  function ReadAt(h: Handle, offset: int, len: nat, resp: Response, fault: Fault): (Handle, Result) {
    var open := Positioned(h, offset, resp);
    if h.closed then (h, Failed)
    else if open.body.None? then (open, Failed)
    else ReadBody(open, len, fault)
  }

  // ----- Against an honest server

  /** `data` is the resource from `offset` on, possibly cut short. */
  predicate From(resource: seq<byte>, offset: int, data: seq<byte>) {
    0 <= offset && offset + |data| <= |resource| && data == resource[offset..offset + |data|]
  }

  /** A 206 carries the requested suffix and a 200 the whole resource, possibly cut short. */
  predicate Honest(resource: seq<byte>, offset: int, resp: Response) {
    resp.Answer? ==>
      (resp.status == 206 ==> From(resource, offset, resp.body)) && (resp.status == 200 ==> From(resource, 0, resp.body))
  }

  /** The same, with nothing cut short. */
  predicate Complete(resource: seq<byte>, offset: int, resp: Response) {
    && Honest(resource, offset, resp)
    && (resp.Answer? && resp.status == 206 ==> offset + |resp.body| == |resource|)
    && (resp.Answer? && resp.status == 200 ==> |resp.body| == |resource|)
  }

  /** The open stream continues the resource at `pos`. */
  predicate Synced(resource: seq<byte>, h: Handle) {
    h.body.Some? ==> From(resource, h.pos, h.body.value)
  }

  /** The same, up to the end of the resource. */
  predicate FullySynced(resource: seq<byte>, h: Handle) {
    Synced(resource, h) && (h.body.Some? ==> h.pos + |h.body.value| == |resource|)
  }

  /** What direct random access would return. */
  predicate Exact(resource: seq<byte>, offset: int, len: nat, r: Result) {
    r.Read? ==> |r.data| <= len && From(resource, offset, r.data)
  }

  lemma PositionedSynced(resource: seq<byte>, h: Handle, offset: nat, resp: Response)
    requires Synced(resource, h) && Honest(resource, offset, resp)
    ensures var open := Positioned(h, offset, resp);
            Synced(resource, open) && (open.body.Some? ==> open.pos == offset)
  {}

  lemma FromSplits(resource: seq<byte>, offset: int, data: seq<byte>, n: nat)
    requires From(resource, offset, data) && n <= |data|
    ensures From(resource, offset, data[..n]) && From(resource, offset + n, data[n..])
  {}

  lemma ReadBodyExact(resource: seq<byte>, h: Handle, len: nat, fault: Fault)
    requires h.body.Some? && Synced(resource, h)
    ensures var (t, r) := ReadBody(h, len, fault);
            Synced(resource, t) && Exact(resource, h.pos, len, r)
  {
    var n := if len <= |h.body.value| then len else |h.body.value|;
    FromSplits(resource, h.pos, h.body.value, n);
  }

  lemma ReadAtIsExact(resource: seq<byte>, h: Handle, offset: nat, len: nat, resp: Response, fault: Fault)
    requires Synced(resource, h) && Honest(resource, offset, resp)
    ensures var (t, r) := ReadAt(h, offset, len, resp, fault);
            Synced(resource, t) && Exact(resource, offset, len, r)
  {
    var open := Positioned(h, offset, resp);
    PositionedSynced(resource, h, offset, resp);
    if open.body.Some? { ReadBodyExact(resource, open, len, fault); }
  }

  /** With complete bodies a short read means the end of the resource, as callers assume. */
  lemma ShortReadIsEnd(resource: seq<byte>, h: Handle, offset: nat, len: nat, resp: Response, fault: Fault)
    requires FullySynced(resource, h) && Complete(resource, offset, resp)
    ensures var (t, r) := ReadAt(h, offset, len, resp, fault);
            FullySynced(resource, t) && (r.Read? && |r.data| < len ==> offset + |r.data| == |resource|)
  {
    ReadAtIsExact(resource, h, offset, len, resp, fault);
    var open := Positioned(h, offset, resp);
    assert FullySynced(resource, open) by { PositionedSynced(resource, h, offset, resp); }
  }

  // ----- Any sequence of calls

  datatype Call = Call(offset: int, len: nat, resp: Response, fault: Fault)

  function Results(h: Handle, calls: seq<Call>): (rs: seq<Result>)
    ensures |rs| == |calls|
    decreases |calls|
  {
    if calls == [] then [] else
      var c := calls[0];
      var (t, r) := ReadAt(h, c.offset, c.len, c.resp, c.fault);
      [r] + Results(t, calls[1..])
  }

  /** The cached stream refines direct random access: whatever the calls, every successful read
      returns exactly the resource's bytes at its offset. */
  lemma {:induction false} CachedStreamIsRandomAccess(resource: seq<byte>, h: Handle, calls: seq<Call>, i: nat)
    requires Synced(resource, h) && i < |calls|
    requires forall k :: 0 <= k < |calls| ==> calls[k].offset >= 0 && Honest(resource, calls[k].offset, calls[k].resp)
    ensures Exact(resource, calls[i].offset, calls[i].len, Results(h, calls)[i])
    decreases |calls|
  {
    var c := calls[0];
    ReadAtIsExact(resource, h, c.offset, c.len, c.resp, c.fault);
    if i > 0 {
      var t := ReadAt(h, c.offset, c.len, c.resp, c.fault).0;
      CachedStreamIsRandomAccess(resource, t, calls[1..], i - 1);
      assert Results(h, calls)[i] == Results(t, calls[1..])[i - 1];
    }
  }

  predicate Reopens(h: Handle, offset: int) {
    h.body.None? || h.pos != offset
  }

  /** The guard on a 200 answer rejects positive offsets only: a read that has to reopen is exact for every
      honest server exactly when its offset is not negative. */
  lemma NegativeOffsetIsNotExact(resource: seq<byte>, h: Handle, offset: int, len: nat)
    requires resource != [] && len > 0 && Synced(resource, h) && !h.closing && !h.closed && Reopens(h, offset)
    ensures (forall resp :: Honest(resource, offset, resp) ==>
               Exact(resource, offset, len, ReadAt(h, offset, len, resp, Fine).1))
            <==> offset >= 0
  {
    if offset >= 0 {
      forall resp | Honest(resource, offset, resp)
        ensures Exact(resource, offset, len, ReadAt(h, offset, len, resp, Fine).1)
      {
        ReadAtIsExact(resource, h, offset, len, resp, Fine);
      }
    } else {
      var resp := Answer(200, resource);
      assert Honest(resource, offset, resp);
      assert ReadAt(h, offset, len, resp, Fine).1.Read?;
    }
  }

  // ----- What every read of a run returns

  /** The answer is taken as the stream at the call's offset. */
  predicate Adopted(c: Call) {
    c.resp.Answer? && (c.resp.status == 206 || (c.resp.status == 200 && c.offset <= 0))
  }

  /** The error comes before the buffer is full, and the stream, with `have` bytes to go, has not ended by then. */
  predicate Interrupted(c: Call, have: int) {
    c.fault.Broken? && c.fault.after < c.len && c.fault.after <= have
  }

  /** A call that reads the answer to `o`: it fails exactly when that was not adopted or the body breaks off, and
      otherwise returns what the answer holds at its offset, as much as the buffer takes. */
  predicate ReadsFrom(o: Call, c: Call, r: Result) {
    if !Adopted(o) then r == Failed
    else
      var at := c.offset - o.offset;
      && 0 <= at <= |o.resp.body|
      && (r == Failed <==> Interrupted(c, |o.resp.body| - at))
      && (r.Read? ==> |r.data| == (if c.len <= |o.resp.body| - at then c.len else |o.resp.body| - at)
                      && r.data == o.resp.body[at..at + |r.data|])
  }

  /** The stream left by a call: what its read did not take, or none after a failure. */
  predicate Leaves(o: Call, c: Call, r: Result, h: Handle) {
    && (r == Failed ==> h.body == None)
    && (r.Read? ==> Adopted(o) && h.pos == c.offset + |r.data| && 0 <= h.pos - o.offset <= |o.resp.body|
                    && h.body == Some(o.resp.body[h.pos - o.offset..]))
  }

  lemma ReadOpens(h: Handle, c: Call)
    requires !h.closed && !h.closing && (h.body.None? || h.pos != c.offset)
    ensures var (t, r) := ReadAt(h, c.offset, c.len, c.resp, c.fault);
            ReadsFrom(c, c, r) && Leaves(c, c, r, t) && !t.closed && !t.closing
  {}

  lemma ReadContinues(o: Call, h: Handle, c: Call)
    requires !h.closed && !h.closing && Adopted(o) && h.pos == c.offset
    requires 0 <= c.offset - o.offset <= |o.resp.body| && h.body == Some(o.resp.body[c.offset - o.offset..])
    ensures var (t, r) := ReadAt(h, c.offset, c.len, c.resp, c.fault);
            ReadsFrom(o, c, r) && Leaves(o, c, r, t) && !t.closed && !t.closing
  {}

  /** A read on a closed or closing handle: it fails, unless the handle is only closing and its stream is at the
      offset already. */
  lemma ReadWhileClosing(h: Handle, c: Call)
    requires h.closed || h.closing
    ensures ReadAt(h, c.offset, c.len, c.resp, c.fault).1.Read? <==>
            !h.closed && h.body.Some? && h.pos == c.offset && !Interrupted(c, |h.body.value|)
  {}

  /** The handle before call `i` of a run from a fresh one. */
  function Before(calls: seq<Call>, i: nat): Handle
    requires i <= |calls|
  {
    if i == 0 then FRESH else
    var c := calls[i-1];
    ReadAt(Before(calls, i - 1), c.offset, c.len, c.resp, c.fault).0
  }

  lemma {:induction false} ResultsFrom(h: Handle, calls: seq<Call>, i: nat, k: nat)
    requires k <= i < |calls| && h == Before(calls, k)
    ensures var c := calls[i];
            Results(h, calls[k..])[i-k] == ReadAt(Before(calls, i), c.offset, c.len, c.resp, c.fault).1
    decreases i - k
  {
    var c := calls[k];
    assert calls[k..][0] == c && calls[k..][1..] == calls[k+1..];
    if k < i { ResultsFrom(ReadAt(h, c.offset, c.len, c.resp, c.fault).0, calls, i, k + 1); }
  }

  lemma ResultAt(calls: seq<Call>, i: nat)
    requires i < |calls|
    ensures var c := calls[i];
            ReadAt(Before(calls, i), c.offset, c.len, c.resp, c.fault) == (Before(calls, i + 1), Results(FRESH, calls)[i])
  {
    assert calls[0..] == calls;
    ResultsFrom(FRESH, calls, i, 0);
  }

  /** The call, at or before `i`, whose answer call `i` reads: its own, unless the call before it succeeded and
      ended at its offset. */
  function LastOpening(calls: seq<Call>, rs: seq<Result>, i: nat): (j: nat)
    requires i < |calls| == |rs|
    ensures j <= i
  {
    if i > 0 && rs[i-1].Read? && calls[i-1].offset + |rs[i-1].data| == calls[i].offset then LastOpening(calls, rs, i - 1)
    else i
  }

  lemma {:induction false} RunLeaves(calls: seq<Call>, i: nat)
    requires i < |calls|
    ensures var rs, t := Results(FRESH, calls), Before(calls, i + 1);
            var o := calls[LastOpening(calls, rs, i)];
            ReadsFrom(o, calls[i], rs[i]) && Leaves(o, calls[i], rs[i], t) && !t.closed && !t.closing
  {
    var rs, h := Results(FRESH, calls), Before(calls, i);
    ResultAt(calls, i);
    if i > 0 { RunLeaves(calls, i - 1); }
    if LastOpening(calls, rs, i) == i { ReadOpens(h, calls[i]); }
    else { ReadContinues(calls[LastOpening(calls, rs, i)], h, calls[i]); }
  }

  /** Over any run, whatever the answers and faults: each read is served from the answer of the last opening. */
  lemma RunReads(calls: seq<Call>, i: nat)
    requires i < |calls|
    ensures var rs := Results(FRESH, calls);
            ReadsFrom(calls[LastOpening(calls, rs, i)], calls[i], rs[i])
  {
    RunLeaves(calls, i);
  }

  /** A short read means the end of the resource exactly when the answer of the last opening reached that end. */
  lemma ShortReadIsEndIff(resource: seq<byte>, calls: seq<Call>, i: nat)
    requires i < |calls| && Results(FRESH, calls)[i].Read? && |Results(FRESH, calls)[i].data| < calls[i].len
    ensures var rs := Results(FRESH, calls);
            var o := calls[LastOpening(calls, rs, i)];
            o.resp.Answer? && (calls[i].offset + |rs[i].data| == |resource| <==> o.offset + |o.resp.body| == |resource|)
  {
    RunReads(calls, i);
  }

  /** After a negative offset even a later non-negative read returns the wrong bytes. */
  lemma NegativeOffsetPoisonsStream()
    ensures var resource := [10, 11, 12, 13];
            var resp := Answer(200, resource);
            var rs := Results(FRESH, [Call(-1, 2, resp, Fine), Call(1, 1, NoAnswer, Fine)]);
            Honest(resource, -1, resp) && rs[1] == Read([12]) && resource[1] != 12
  {
    var resource: seq<byte> := [10, 11, 12, 13];
    var resp := Answer(200, resource);
    var second := Call(1, 1, NoAnswer, Fine);
    var t := ReadAt(FRESH, -1, 2, resp, Fine).0;
    assert t == Handle(Some([12, 13]), 1, false, false);
    assert [Call(-1, 2, resp, Fine), second][1..] == [second];
    assert Results(t, [second])[0] == ReadAt(t, 1, 1, NoAnswer, Fine).1;
    assert [12, 13][..1] == [12];
  }

  /** A body cut by the server reads as the end of the resource: a short count, then 0 for ever after. */
  lemma CutBodyReadsAsEnd()
    ensures var resource: seq<byte> := [10, 11, 12];
            var resp := Answer(206, [10, 11]);
            var rs := Results(FRESH, [Call(0, 3, resp, Fine), Call(2, 1, NoAnswer, Fine)]);
            Honest(resource, 0, resp) && rs[0] == Read([10, 11]) && rs[1] == Read([]) && 2 < |resource|
  {
    var resource: seq<byte> := [10, 11, 12];
    var body: seq<byte> := [10, 11];
    var resp := Answer(206, body);
    var first, second := Call(0, 3, resp, Fine), Call(2, 1, NoAnswer, Fine);
    assert body == resource[0..2] && body[..2] == body && body[2..] == [];
    var t := ReadAt(FRESH, 0, 3, resp, Fine).0;
    assert t == Handle(Some([]), 2, false, false);
    assert [first, second][1..] == [second];
    assert Results(t, [second])[0] == ReadAt(t, 2, 1, NoAnswer, Fine).1;
  }

  // ----- The handle object

  class MediaHandle {
    var body: Option<seq<byte>>
    var pos: int
    var closing: bool
    var closed: bool

    ghost function View(): Handle
      reads this
    {
      Handle(body, pos, closing, closed)
    }

    constructor ()
      ensures View() == FRESH
    {
      body, pos, closing, closed := None, 0, false, false;
    }

    method Open(offset: int, resp: Response) returns (ok: bool)
      modifies this`body, this`pos
      ensures View() == OpenAt(old(View()), offset, resp) && ok == body.Some?
    {
      body := None;
      if closing { return false; }
      if resp.NoAnswer? { return false; }
      if resp.status != 206 && resp.status != 200 { return false; }
      if resp.status == 200 && offset > 0 { return false; }
      body := Some(resp.body);
      pos := offset;
      return true;
    }

    /** Reads off the open stream into the front of `buf`; the count, or -1. */
    method Fill(buf: array<byte>, fault: Fault) returns (n: int)
      requires body.Some?
      modifies this`body, this`pos, buf
      ensures View() == ReadBody(old(View()), buf.Length, fault).0
      ensures n == -1 <==> ReadBody(old(View()), buf.Length, fault).1.Failed?
      ensures n == -1 || (0 <= n <= buf.Length && ReadBody(old(View()), buf.Length, fault).1 == Read(buf[..n])
                          && buf[n..] == old(buf[n..]))
    {
      var have := body.value;
      if fault.Broken? && fault.after < buf.Length && fault.after <= |have| {
        forall k | 0 <= k < fault.after { buf[k] := have[k]; }
        pos := pos + fault.after;
        body := None;
        return -1;
      }
      n := if buf.Length <= |have| then buf.Length else |have|;
      forall k | 0 <= k < n { buf[k] := have[k]; }
      pos := pos + n;
      body := Some(have[n..]);
    }

    method ReadInto(offset: int, buf: array<byte>, resp: Response, fault: Fault) returns (n: int)
      modifies this`body, this`pos, buf
      ensures View() == ReadAt(old(View()), offset, buf.Length, resp, fault).0
      ensures n == -1 <==> ReadAt(old(View()), offset, buf.Length, resp, fault).1.Failed?
      ensures n == -1 || (0 <= n <= buf.Length && ReadAt(old(View()), offset, buf.Length, resp, fault).1 == Read(buf[..n])
                          && buf[n..] == old(buf[n..]))
    {
      if closed { return -1; }
      if body.None? || pos != offset {
        var ok := Open(offset, resp);
        if !ok { return -1; }
      }
      n := Fill(buf, fault);
    }

    /** Close, once it has the lock. */
    method Close()
      modifies this
      ensures View() == Handle(None, old(pos), true, true)
    {
      closing := true;
      body := None;
      closed := true;
    }
  }
}
