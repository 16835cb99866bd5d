/** One relay session's forward queue with its sole writer, and the table of sessions. */
module RelaySession {
  import opened Types
  import opened RelayProtocol

  const QUEUE_DEPTH: nat := 256

  datatype Writer<T> = NotStarted | Waiting | Writing(item: T) | Exited

  /** `done` and `closed` are the two things `shutdown` closes; `once` is its guard, `closes` how often
      it closed the stream. */
  datatype Forward<T> = Forward(
    queue: seq<T>, writer: Writer<T>, done: bool, once: bool, closed: bool, dropped: nat, closes: nat)

  function Fresh<T>(): Forward<T> {
    Forward([], NotStarted, false, false, false, 0, 0)
  }

  /** The writer starts with the first frame handed over. */
  function Started<T>(f: Forward<T>): Forward<T> {
    if f.writer.NotStarted? then f.(writer := Waiting) else f
  }

  /** Which arms of the non-blocking send are ready: the queue has room, or the frame is dropped
      because the session is done or the queue is full. */
  predicate MayAccept<T>(f: Forward<T>) { |f.queue| < QUEUE_DEPTH }

  predicate MayDrop<T>(f: Forward<T>) { f.done || |f.queue| >= QUEUE_DEPTH }

  function Enqueued<T>(f: Forward<T>, item: T, accept: bool): Forward<T> {
    if accept then Started(f).(queue := f.queue + [item]) else Started(f).(dropped := f.dropped + 1)
  }

  function Shutdown<T>(f: Forward<T>): Forward<T> {
    if f.once then f
    else f.(once := true, done := f.done || !f.writer.NotStarted?, closed := true, closes := f.closes + 1)
  }

  predicate Wf<T>(f: Forward<T>) {
    && |f.queue| <= QUEUE_DEPTH && f.closes == (if f.once then 1 else 0)
    && (f.once ==> f.closed) && (f.done ==> f.once)
    && (f.writer.NotStarted? ==> f.queue == [] && !f.done)
    && (f.once && f.writer.Waiting? ==> f.done || f.queue != [])
  }

  /** Shutting down twice is shutting down once, and the stream is closed by it at most once; what was queued
      stays, and a writer that was started is told. */
  lemma ShutdownOnce<T>(f: Forward<T>)
    requires Wf(f)
    ensures Shutdown(Shutdown(f)) == Shutdown(f)
    ensures Wf(Shutdown(f)) && Shutdown(f).closed && Shutdown(f).closes == 1
    ensures var g := Shutdown(f);
            && g.queue == f.queue && g.writer == f.writer && g.dropped == f.dropped
            && (!f.once && !f.writer.NotStarted? ==> g.done)
  {}

  /** What handing a frame over comes to: it is last in the queue, or counted as dropped, never both; with room
      and nothing shut down it cannot be dropped, and a full queue of 256 cannot take it. */
  lemma EnqueueOutcome<T>(f: Forward<T>, item: T, accept: bool)
    ensures var g := Enqueued(f, item, accept);
            && (accept ==> g.queue == f.queue + [item] && g.dropped == f.dropped)
            && (!accept ==> g.queue == f.queue && g.dropped == f.dropped + 1)
            && !g.writer.NotStarted? && (!f.writer.NotStarted? ==> g.writer == f.writer)
            && g.done == f.done && g.once == f.once && g.closed == f.closed && g.closes == f.closes
    ensures MayAccept(f) <==> |f.queue| < 256
    ensures MayDrop(f) <==> f.done || |f.queue| >= 256
  {}

  class Session {
    const id: nat
    var verified: bool
    var sendCh: seq<seq<byte>>
    var writer: Writer<seq<byte>>
    var done: bool
    var closeOnce: bool
    var closed: bool
    var dropped: nat
    var closes: nat
    var wire: seq<byte>

    ghost function View(): Forward<seq<byte>>
      reads this
    {
      Forward(sendCh, writer, done, closeOnce, closed, dropped, closes)
    }

    constructor (id: nat, greeting: seq<byte>)
      ensures View() == Fresh() && !verified && wire == greeting && this.id == id
    {
      this.id := id;
      verified, sendCh, writer, done, closeOnce, closed, dropped, closes :=
        false, [], NotStarted, false, false, false, 0, 0;
      wire := greeting;
    }

    /** Never blocks. `preferDone` is the select's choice when both the queue and `done` are ready. */
    method Enqueue(frame: seq<byte>, preferDone: bool) returns (ok: bool)
      requires Wf(View())
      modifies this`sendCh, this`writer, this`dropped
      ensures Wf(View()) && View() == Enqueued(old(View()), frame, ok)
      ensures ok ==> MayAccept(old(View()))
      ensures !ok ==> MayDrop(old(View()))
    {
      if writer.NotStarted? { writer := Waiting; }
      if |sendCh| < QUEUE_DEPTH && !(done && preferDone) {
        sendCh := sendCh + [frame];
        return true;
      }
      dropped := dropped + 1;
      return false;
    }

    method CloseDown()
      modifies this`done, this`closeOnce, this`closed, this`closes
      ensures View() == Shutdown(old(View()))
    {
      if closeOnce { return; }
      closeOnce := true;
      if !writer.NotStarted? { done := true; }
      closed := true;
      closes := closes + 1;
    }

    /** One round of the writer: the next frame is written whole, or cut after `written` bytes and the
        session shut down. */
    method WriteNext(fails: bool, written: nat) returns (frame: seq<byte>)
      requires Wf(View()) && writer.Waiting? && sendCh != []
      requires (fails ==> written < |sendCh[0]| || written == 0) && (closed ==> fails)
      modifies this
      ensures Wf(View()) && frame == old(sendCh)[0] && sendCh == old(sendCh)[1..] && verified == old(verified)
      ensures !fails ==> wire == old(wire) + frame && View() == old(View()).(queue := sendCh)
      ensures fails ==> written <= |frame| && wire == old(wire) + frame[..written]
      ensures fails ==> View() == Shutdown(old(View()).(queue := sendCh)).(writer := Exited)
    {
      frame := sendCh[0];
      sendCh := sendCh[1..];
      if fails {
        wire := wire + frame[..written];
        CloseDown();
        writer := Exited;
      } else {
        wire := wire + frame;
      }
    }
  }

  class SessionManager {
    var sessions: map<nat, Session>
    var requirePeerAuth: bool

    constructor (strict: bool)
      ensures sessions == map[] && requirePeerAuth == strict
    {
      sessions, requirePeerAuth := map[], strict;
    }

    predicate Owns(id: nat, s: Session?)
      reads this`sessions
    {
      s != null && id in sessions && sessions[id] == s
    }

    /** The newest session takes the slot; the one it displaces is shut down. */
    method Register(id: nat, s: Session)
      modifies this`sessions, sessions.Values
      ensures sessions == old(sessions)[id := s]
      ensures id in old(sessions) && old(sessions)[id] != s ==>
                var prev := old(sessions)[id];
                prev.View() == Shutdown(old(prev.View())) && prev.verified == old(prev.verified) && prev.wire == old(prev.wire)
      ensures forall x :: x in old(sessions.Values) && !(id in old(sessions) && old(sessions)[id] == x) ==> unchanged(x)
      ensures id in old(sessions) && old(sessions)[id] == s ==> unchanged(s)
    {
      var prev: Session? := if id in sessions then sessions[id] else null;
      sessions := sessions[id := s];
      if prev != null && prev != s { prev.CloseDown(); }
    }

    /** Only the session that still owns the slot may empty it. */
    method Unregister(id: nat, s: Session?)
      modifies this`sessions, if Owns(id, s) then {s} else {}
      ensures !(s != null && id in old(sessions) && old(sessions)[id] == s) ==>
                sessions == old(sessions) && (s != null ==> unchanged(s))
      ensures s != null && id in old(sessions) && old(sessions)[id] == s ==>
                && sessions == old(sessions) - {id} && s.View() == Shutdown(old(s.View()))
                && s.verified == old(s.verified) && s.wire == old(s.wire)
    {
      if s == null || id !in sessions || sessions[id] != s { return; }
      sessions := sessions - {id};
      s.CloseDown();
    }

    method MarkVerified(id: nat, s: Session?)
      modifies if Owns(id, s) then {s} else {}
      ensures s != null && !(id in sessions && sessions[id] == s) ==> unchanged(s)
      ensures s != null && id in sessions && sessions[id] == s ==>
                s.verified && s.View() == old(s.View()) && s.wire == old(s.wire)
    {
      if s != null && id in sessions && sessions[id] == s { s.verified := true; }
    }

    method Get(id: nat) returns (s: Session?)
      ensures s != null <==> id in sessions && (requirePeerAuth ==> sessions[id].verified)
      ensures s != null ==> s == sessions[id]
    {
      if id in sessions && (!requirePeerAuth || sessions[id].verified) { return sessions[id]; }
      return null;
    }

    /** Hands a frame to the destination's queue; fails without a reachable session or without room. */
    method Relay(to: nat, frame: seq<byte>, preferDone: bool) returns (ok: bool)
      requires forall x :: x in sessions.Values ==> Wf(x.View())
      modifies sessions.Values
      ensures !(to in sessions && (requirePeerAuth ==> old(sessions[to].verified))) ==> !ok
      ensures to in sessions && (requirePeerAuth ==> old(sessions[to].verified)) ==>
                && sessions[to].View() == Enqueued(old(sessions[to].View()), frame, ok)
                && (ok ==> MayAccept(old(sessions[to].View()))) && (!ok ==> MayDrop(old(sessions[to].View())))
                && sessions[to].verified == old(sessions[to].verified) && sessions[to].wire == old(sessions[to].wire)
      ensures forall x :: x in sessions.Values && !(to in sessions && sessions[to] == x) ==> unchanged(x)
    {
      if to in sessions && (!requirePeerAuth || sessions[to].verified) {
        ok := sessions[to].Enqueue(frame, preferDone);
      } else {
        ok := false;
      }
    }
  }
}
