/** The media handle's close protocol: any number of readers and closers over two locks, a published
    cancel function and a closing flag. Sections under `cancelMu` are single steps. */
module MediaClose {
  import opened Types

  /** Who holds `mu`. */
  datatype Holder = Free | ByReader(i: nat) | ByCloser(j: nat)

  /** A reader inside readAt. `open` tells whether discarding is the start of openAt or the end of a
      failed read. */
  datatype Reader =
    | Arriving
    | Locked
    | Taking(open: bool)
    | Firing(fn: Option<nat>, open: bool)
    | Dropping(open: bool)
    | Publishing
    | Checking(req: nat)
    | InDo(req: nat)
    | InRead(req: nat)
    | Unpublishing(req: nat)
    | Cancelling(req: nat)
    | Releasing(ok: bool)
    | Returned(ok: bool)

  /** A thread inside close. */
  datatype Closer =
    | Starting
    | Snapping
    | Striking(fn: Option<nat>)
    | Trying
    | Clearing
    | ClearFiring(fn: Option<nat>)
    | ClearDropping
    | Marking
    | Unlocking
    | Closed
    | GaveUp

  /** Requests are numbered; `cancelled` holds those whose context was cancelled. `fired` is history:
      some closer has snapshotted and cancelled after setting `closing`. */
  datatype State = State(
    mu: Holder, body: Option<nat>, cancel: Option<nat>, closing: bool, closed: bool,
    cancelled: set<nat>, next: nat, fired: bool, readers: seq<Reader>, closers: seq<Closer>)

  /** `ReaderMove` is a reader's next step on its own, including giving up on a cancelled request;
      `ServerAnswers` needs the server. `reuse` is whether the open stream is at the right offset. */
  datatype Step =
    | NewReader
    | NewCloser
    | ReaderMove(i: nat, reuse: bool)
    | ServerAnswers(i: nat, ok: bool)
    | CloserMove(j: nat)
    | CloserGivesUp(j: nat)

  predicate InLock(r: Reader) {
    !r.Arriving? && !r.Returned?
  }

  predicate CloserInLock(c: Closer) {
    c.Clearing? || c.ClearFiring? || c.ClearDropping? || c.Marking? || c.Unlocking?
  }

  /** Waiting for the server. */
  predicate OnNetwork(r: Reader) {
    r.InDo? || r.InRead?
  }

  predicate Enabled(s: State, step: Step) {
    match step
    case NewReader => true
    case NewCloser => true
    case ReaderMove(i, _) =>
      && i < |s.readers|
      && var r := s.readers[i];
      && !r.Returned? && (r.Arriving? ==> s.mu.Free?) && (OnNetwork(r) ==> r.req in s.cancelled)
    case ServerAnswers(i, _) => i < |s.readers| && OnNetwork(s.readers[i])
    case CloserMove(j) => j < |s.closers| && !s.closers[j].Closed? && !s.closers[j].GaveUp?
    case CloserGivesUp(j) => j < |s.closers| && s.closers[j].Trying? && !s.mu.Free?
  }

  /** The request a cancel function stands for, if there is one. */
  function Target(fn: Option<nat>): set<nat> {
    if fn.Some? then {fn.value} else {}
  }

  function NextReader(s: State, r: Reader, reuse: bool): Reader {
    match r
    case Arriving => Locked
    case Locked =>
      if s.closed then Releasing(false) else if s.body.Some? && reuse then InRead(s.body.value) else Taking(true)
    case Taking(open) => Firing(s.cancel, open)
    case Firing(fn, open) => Dropping(open)
    case Dropping(open) => if open then Publishing else Releasing(false)
    case Publishing => Checking(s.next)
    case Checking(req) => if s.closing then Unpublishing(req) else InDo(req)
    case InDo(req) => Unpublishing(req)
    case InRead(req) => Taking(false)
    case Unpublishing(req) => Cancelling(req)
    case Cancelling(req) => Releasing(false)
    case Releasing(ok) => Returned(ok)
    case Returned(ok) => r
  }

  function MoveReader(s: State, i: nat, reuse: bool): State
    requires i < |s.readers|
  {
    var r := s.readers[i];
    s.(readers := s.readers[i := NextReader(s, r, reuse)],
       mu := if r.Arriving? then ByReader(i) else if r.Releasing? then Free else s.mu,
       cancel := if r.Taking? || r.Unpublishing? then None else if r.Publishing? then Some(s.next) else s.cancel,
       next := if r.Publishing? then s.next + 1 else s.next,
       body := if r.Dropping? then None else s.body,
       cancelled := s.cancelled + if r.Firing? then Target(r.fn) else if r.Cancelling? then {r.req} else {})
  }

  function AnsweredReader(r: Reader, ok: bool): Reader {
    match r
    case InDo(req) => if ok then InRead(req) else Unpublishing(req)
    case InRead(req) => if ok then Releasing(true) else Taking(false)
    case _ => r
  }

  function Answered(s: State, i: nat, ok: bool): State
    requires i < |s.readers|
  {
    var r := s.readers[i];
    s.(readers := s.readers[i := AnsweredReader(r, ok)],
       body := if r.InDo? && ok then Some(r.req) else s.body)
  }

  function NextCloser(s: State, c: Closer): Closer {
    match c
    case Starting => Snapping
    case Snapping => Striking(s.cancel)
    case Striking(fn) => Trying
    case Trying => if s.mu.Free? then Clearing else Snapping
    case Clearing => ClearFiring(s.cancel)
    case ClearFiring(fn) => ClearDropping
    case ClearDropping => Marking
    case Marking => Unlocking
    case Unlocking => Closed
    case Closed => c
    case GaveUp => c
  }

  function MoveCloser(s: State, j: nat): State
    requires j < |s.closers|
  {
    var c := s.closers[j];
    s.(closers := s.closers[j := NextCloser(s, c)],
       closing := s.closing || c.Starting?,
       fired := s.fired || c.Striking?,
       mu := if c.Trying? && s.mu.Free? then ByCloser(j) else if c.Unlocking? then Free else s.mu,
       cancel := if c.Clearing? then None else s.cancel,
       body := if c.ClearDropping? then None else s.body,
       closed := s.closed || c.Marking?,
       cancelled := s.cancelled + if c.Striking? || c.ClearFiring? then Target(c.fn) else {})
  }

  function Apply(s: State, step: Step): State
    requires Enabled(s, step)
  {
    match step
    case NewReader => s.(readers := s.readers + [Arriving])
    case NewCloser => s.(closers := s.closers + [Starting])
    case ReaderMove(i, reuse) => MoveReader(s, i, reuse)
    case ServerAnswers(i, ok) => Answered(s, i, ok)
    case CloserMove(j) => MoveCloser(s, j)
    case CloserGivesUp(j) => s.(closers := s.closers[j := GaveUp])
  }

  predicate Run(s: State, steps: seq<Step>, t: State)
    decreases |steps|
  {
    if steps == [] then s == t
    else Enabled(s, steps[0]) && Run(Apply(s, steps[0]), steps[1..], t)
  }

  // ----- The invariant

  /** `mu` is held by exactly the threads that are past locking it. */
  predicate LockOk(s: State) {
    && (s.mu.ByReader? ==> s.mu.i < |s.readers|) && (s.mu.ByCloser? ==> s.mu.j < |s.closers|)
    && (forall i :: 0 <= i < |s.readers| ==> (InLock(s.readers[i]) <==> s.mu == ByReader(i)))
    && (forall j :: 0 <= j < |s.closers| ==> (CloserInLock(s.closers[j]) <==> s.mu == ByCloser(j)))
  }

  /** What the shared fields are while a reader is at `r`. */
  predicate AtReader(s: State, r: Reader) {
    match r
    case Arriving => true
    case Returned(_) => true
    case Locked => s.body == s.cancel
    case Taking(_) => !s.closed && (s.body.Some? ==> s.cancel == s.body)
    case Firing(_, _) => !s.closed && s.cancel.None?
    case Dropping(_) => !s.closed && s.cancel.None?
    case Publishing => !s.closed && s.cancel.None? && s.body.None?
    case Checking(req) => !s.closed && s.cancel == Some(req) && s.body.None?
    case InDo(req) => !s.closed && s.cancel == Some(req) && s.body.None?
    case InRead(req) => !s.closed && s.cancel == Some(req) && s.body == Some(req)
    case Unpublishing(req) => !s.closed && s.cancel == Some(req) && s.body.None?
    case Cancelling(_) => !s.closed && s.cancel.None? && s.body.None?
    case Releasing(_) => s.body == s.cancel
  }

  predicate AtCloser(s: State, c: Closer) {
    match c
    case Clearing => s.body == s.cancel
    case ClearFiring(_) => s.cancel.None?
    case ClearDropping => s.cancel.None?
    case Marking => s.cancel.None? && s.body.None?
    case Unlocking => s.cancel.None? && s.body.None? && s.closed
    case _ => true
  }

  /** Only the holder of `mu` matters to the shared fields. */
  predicate FieldsOk(s: State) {
    match s.mu
    case Free => s.body == s.cancel
    case ByReader(i) => i < |s.readers| && AtReader(s, s.readers[i])
    case ByCloser(j) => j < |s.closers| && AtCloser(s, s.closers[j])
  }

  predicate FlagsOk(s: State) {
    && (s.closed ==> s.body.None? && s.cancel.None? && s.closing)
    && (s.fired ==> s.closing)
    && (forall j :: 0 <= j < |s.closers| && !s.closers[j].Starting? ==> s.closing)
    && (forall j :: 0 <= j < |s.closers| && s.closers[j].Closed? ==> s.closed)
  }

  /** A request somebody waits for, or could come to wait for without a new check. */
  predicate Live(s: State, req: nat) {
    || (exists i :: 0 <= i < |s.readers| && OnNetwork(s.readers[i]) && s.readers[i].req == req)
    || (s.body == Some(req) && s.cancel == Some(req))
  }

  /** Once a closer has struck, every live request is cancelled; one about to strike has what is left. */
  ghost predicate StruckOk(s: State) {
    && (s.fired ==> forall req :: Live(s, req) ==> req in s.cancelled)
    && (forall j, req :: 0 <= j < |s.closers| && s.closers[j].Striking? && Live(s, req) ==>
          req in s.cancelled || s.closers[j].fn == Some(req))
  }

  ghost predicate Inv(s: State) {
    LockOk(s) && FieldsOk(s) && FlagsOk(s) && StruckOk(s)
  }

  predicate Init(s: State) {
    s == State(Free, None, None, false, false, {}, 0, false, [], [])
  }

  // ----- Every step keeps it

  /** How one thread's step may move `mu`: not at all, taking it, or letting go of it. */
  predicate MuMoves(before: Holder, after: Holder, self: Holder, had: bool, has: bool) {
    || (after == before && had == has)
    || (before.Free? && after == self && !had && has)
    || (before == self && after.Free? && had && !has)
  }

  lemma ReaderLocks(s: State, t: State, i: nat)
    requires LockOk(s) && i < |s.readers| && |t.readers| == |s.readers| && t.closers == s.closers
    requires forall k :: 0 <= k < |s.readers| && k != i ==> t.readers[k] == s.readers[k]
    requires MuMoves(s.mu, t.mu, ByReader(i), InLock(s.readers[i]), InLock(t.readers[i]))
    ensures LockOk(t)
  {}

  lemma CloserLocks(s: State, t: State, j: nat)
    requires LockOk(s) && j < |s.closers| && |t.closers| == |s.closers| && t.readers == s.readers
    requires forall k :: 0 <= k < |s.closers| && k != j ==> t.closers[k] == s.closers[k]
    requires MuMoves(s.mu, t.mu, ByCloser(j), CloserInLock(s.closers[j]), CloserInLock(t.closers[j]))
    ensures LockOk(t)
  {}

  lemma ReaderLock(s: State, i: nat, reuse: bool)
    requires LockOk(s) && Enabled(s, ReaderMove(i, reuse))
    ensures LockOk(MoveReader(s, i, reuse))
  {
    assert InLock(s.readers[i]) ==> s.mu == ByReader(i);
    ReaderLocks(s, MoveReader(s, i, reuse), i);
  }

  lemma CloserLock(s: State, j: nat)
    requires LockOk(s) && Enabled(s, CloserMove(j))
    ensures LockOk(MoveCloser(s, j))
  {
    assert CloserInLock(s.closers[j]) ==> s.mu == ByCloser(j);
    CloserLocks(s, MoveCloser(s, j), j);
  }

  lemma LockKept(s: State, step: Step)
    requires LockOk(s) && Enabled(s, step)
    ensures LockOk(Apply(s, step))
  {
    match step
    case ReaderMove(i, reuse) => ReaderLock(s, i, reuse);
    case CloserMove(j) => CloserLock(s, j);
    case _ =>
  }

  lemma ReaderFields(s: State, i: nat, reuse: bool)
    requires LockOk(s) && FieldsOk(s) && FlagsOk(s) && Enabled(s, ReaderMove(i, reuse))
    ensures FieldsOk(MoveReader(s, i, reuse)) && FlagsOk(MoveReader(s, i, reuse))
  {
    assert InLock(s.readers[i]) ==> s.mu == ByReader(i);
  }

  lemma ServerFields(s: State, i: nat, ok: bool)
    requires LockOk(s) && FieldsOk(s) && FlagsOk(s) && Enabled(s, ServerAnswers(i, ok))
    ensures FieldsOk(Answered(s, i, ok)) && FlagsOk(Answered(s, i, ok))
  {
    assert InLock(s.readers[i]) && s.mu == ByReader(i);
  }

  lemma CloserFields(s: State, j: nat)
    requires LockOk(s) && FieldsOk(s) && FlagsOk(s) && Enabled(s, CloserMove(j))
    ensures FieldsOk(MoveCloser(s, j)) && FlagsOk(MoveCloser(s, j))
  {
    assert CloserInLock(s.closers[j]) ==> s.mu == ByCloser(j);
  }

  lemma FieldsKept(s: State, step: Step)
    requires LockOk(s) && FieldsOk(s) && FlagsOk(s) && Enabled(s, step)
    ensures FieldsOk(Apply(s, step)) && FlagsOk(Apply(s, step))
  {
    match step
    case ReaderMove(i, reuse) => ReaderFields(s, i, reuse);
    case ServerAnswers(i, ok) => ServerFields(s, i, ok);
    case CloserMove(j) => CloserFields(s, j);
    case CloserGivesUp(j) => assert !CloserInLock(s.closers[j]);
    case _ =>
  }

  /** A live request is the published one. */
  lemma LiveIsPublished(s: State, req: nat)
    requires LockOk(s) && FieldsOk(s) && Live(s, req)
    ensures s.cancel == Some(req)
  {
    if i :| 0 <= i < |s.readers| && OnNetwork(s.readers[i]) && s.readers[i].req == req {
      assert InLock(s.readers[i]) && s.mu == ByReader(i);
    }
  }

  /** While closing, no request becomes live. */
  lemma NothingNewIsLive(s: State, step: Step, req: nat)
    requires LockOk(s) && FieldsOk(s) && Enabled(s, step) && s.closing && Live(Apply(s, step), req)
    ensures Live(s, req)
  {
    var t := Apply(s, step);
    LockKept(s, step);
    if i :| 0 <= i < |t.readers| && OnNetwork(t.readers[i]) && t.readers[i].req == req {
      if i < |s.readers| && t.readers[i] == s.readers[i] {
      } else {
        assert step.ReaderMove? || step.ServerAnswers?;
        assert step.i == i;
        NewlyOnNetwork(s, step, req);
      }
    } else {
      assert t.body == Some(req) && t.cancel == Some(req);
      BodyStays(s, step, req);
    }
  }

  lemma NewlyOnNetwork(s: State, step: Step, req: nat)
    requires LockOk(s) && FieldsOk(s) && Enabled(s, step) && s.closing && (step.ReaderMove? || step.ServerAnswers?)
    requires var r := Apply(s, step).readers[step.i]; OnNetwork(r) && r.req == req
    ensures Live(s, req)
  {
    assert InLock(s.readers[step.i]) ==> s.mu == ByReader(step.i);
  }

  lemma BodyStays(s: State, step: Step, req: nat)
    requires LockOk(s) && FieldsOk(s) && Enabled(s, step) && s.closing
    requires Apply(s, step).body == Some(req) && Apply(s, step).cancel == Some(req)
    ensures Live(s, req)
  {
    if step.ReaderMove? || step.ServerAnswers? {
      assert InLock(s.readers[step.i]) ==> s.mu == ByReader(step.i);
      if s.readers[step.i].InDo? { assert OnNetwork(s.readers[step.i]); }
    }
  }

  lemma StruckKept(s: State, step: Step)
    requires Inv(s) && Enabled(s, step)
    ensures StruckOk(Apply(s, step))
  {
    var t := Apply(s, step);
    assert s.cancelled <= t.cancelled;
    FieldsKept(s, step);
    forall req | t.closing && Live(t, req)
      ensures t.fired ==> req in t.cancelled
      ensures forall j :: 0 <= j < |t.closers| && t.closers[j].Striking? ==> req in t.cancelled || t.closers[j].fn == Some(req)
    {
      if s.closing {
        NothingNewIsLive(s, step, req);
        LiveIsPublished(s, req);
      }
    }
  }

  lemma StepKeepsInv(s: State, step: Step)
    requires Inv(s) && Enabled(s, step)
    ensures Inv(Apply(s, step))
  {
    LockKept(s, step);
    FieldsKept(s, step);
    StruckKept(s, step);
  }

  lemma {:induction false} RunKeepsInv(s: State, steps: seq<Step>, t: State)
    requires Inv(s) && Run(s, steps, t)
    ensures Inv(t)
    decreases |steps|
  {
    if steps != [] {
      StepKeepsInv(s, steps[0]);
      RunKeepsInv(Apply(s, steps[0]), steps[1..], t);
    }
  }

  // ----- What closing guarantees

  /** A step of reader `i` itself, or of somebody else. */
  predicate MovesReader(step: Step, i: nat) {
    (step.ReaderMove? || step.ServerAnswers?) && step.i == i
  }

  /** Steps left until a reader lets go of `mu`. */
  function StepsLeft(r: Reader): nat {
    match r
    case Returned(_) => 0
    case Releasing(_) => 1
    case Cancelling(_) => 2
    case Unpublishing(_) => 3
    case Dropping(open) => if open then 10 else 2
    case Firing(_, open) => if open then 11 else 3
    case Taking(open) => if open then 12 else 4
    case InRead(_) => 5
    case InDo(_) => 6
    case Checking(_) => 7
    case Publishing => 8
    case Locked => 13
    case Arriving => 14
  }

  /** Each of its own steps brings a reader closer to letting go; nobody else's moves it. */
  lemma ReadersMoveOn(s: State, step: Step, i: nat)
    requires Enabled(s, step) && i < |s.readers|
    ensures i < |Apply(s, step).readers|
    ensures MovesReader(step, i) ==> StepsLeft(Apply(s, step).readers[i]) < StepsLeft(s.readers[i])
    ensures !MovesReader(step, i) ==> Apply(s, step).readers[i] == s.readers[i]
  {
    match step
    case ReaderMove(k, reuse) => ReaderMovesOn(s, k, reuse);
    case ServerAnswers(k, ok) => assert Answered(s, k, ok).readers == s.readers[k := Answered(s, k, ok).readers[k]];
    case CloserMove(j) => assert MoveCloser(s, j).readers == s.readers;
    case _ =>
  }

  lemma ReaderMovesOn(s: State, i: nat, reuse: bool)
    requires Enabled(s, ReaderMove(i, reuse))
    ensures var t := MoveReader(s, i, reuse);
            t.readers == s.readers[i := t.readers[i]] && StepsLeft(t.readers[i]) < StepsLeft(s.readers[i])
  {}

  /** On the way to a successful read. */
  predicate Succeeding(r: Reader) {
    match r
    case Arriving => false
    case Taking(open) => open
    case Firing(_, open) => open
    case Dropping(open) => open
    case Unpublishing(_) => false
    case Cancelling(_) => false
    case Releasing(ok) => ok
    case Returned(ok) => ok
    case _ => true
  }

  lemma SucceedsOn(s: State, i: nat) returns (step: Step)
    requires i < |s.readers| && Succeeding(s.readers[i]) && !s.readers[i].Returned? && !s.closed && !s.closing
    ensures Enabled(s, step) && MovesReader(step, i) && (step.ServerAnswers? ==> step.ok)
    ensures var t := Apply(s, step);
            i < |t.readers| && Succeeding(t.readers[i]) && !t.closed && !t.closing
  {
    step := if OnNetwork(s.readers[i]) then ServerAnswers(i, true) else ReaderMove(i, false);
  }

  /** While nobody closes, a read under the lock succeeds if the server answers. */
  lemma {:induction false} ReadSucceeds(s: State, i: nat) returns (steps: seq<Step>, t: State)
    requires i < |s.readers| && Succeeding(s.readers[i]) && !s.closed && !s.closing
    ensures Run(s, steps, t) && i < |t.readers| && t.readers[i] == Returned(true)
    ensures forall k :: 0 <= k < |steps| ==> MovesReader(steps[k], i) && (steps[k].ServerAnswers? ==> steps[k].ok)
    decreases StepsLeft(s.readers[i])
  {
    if s.readers[i].Returned? { return [], s; }
    var step := SucceedsOn(s, i);
    ReadersMoveOn(s, step, i);
    var rest;
    rest, t := ReadSucceeds(Apply(s, step), i);
    steps := [step] + rest;
    assert steps[1..] == rest;
  }

  /** Once a closer has struck, no holder of `mu` waits for the server: it can always move on its own.
      With `ReadersMoveOn` it lets go after at most 13 such steps, whatever the server does. */
  lemma HolderIsNeverStuck(s: State, i: nat, reuse: bool)
    requires Inv(s) && s.fired && s.mu == ByReader(i)
    ensures Enabled(s, ReaderMove(i, reuse))
  {
    var r := s.readers[i];
    if OnNetwork(r) { assert Live(s, r.req); }
  }

  /** Once closing has begun, an openAt that reaches its check is refused, and no request that was not
      yet past its check is ever waited for. */
  lemma ClosingRefusesRequests(s: State, i: nat, reuse: bool)
    requires Inv(s) && s.closing && i < |s.readers| && s.readers[i].Checking?
    ensures Enabled(s, ReaderMove(i, reuse)) && Apply(s, ReaderMove(i, reuse)).readers[i] == Unpublishing(s.readers[i].req)
  {}

  /** A close that gets `mu` leaves nothing behind, and every later readAt fails. */
  lemma ClosedForGood(s: State, steps: seq<Step>, t: State)
    requires Inv(s) && s.closed && Run(s, steps, t)
    ensures t.closed && t.body.None? && t.cancel.None?
    ensures forall i :: 0 <= i < |t.readers| && InLock(t.readers[i]) ==> t.readers[i].Locked? || t.readers[i].Releasing?
    ensures forall i :: |s.readers| <= i < |t.readers| ==>
              t.readers[i].Arriving? || t.readers[i].Locked? || t.readers[i] == Releasing(false) || t.readers[i] == Returned(false)
    decreases |steps|
  {
    RunKeepsInv(s, steps, t);
    if steps != [] {
      StepKeepsInv(s, steps[0]);
      StaysClosed(s, steps[0]);
      ClosedForGoodFrom(Apply(s, steps[0]), steps[1..], t, |s.readers|);
    }
    forall i | 0 <= i < |t.readers| && InLock(t.readers[i])
      ensures t.readers[i].Locked? || t.readers[i].Releasing? { assert t.mu == ByReader(i); }
  }

  predicate LateReader(r: Reader) {
    r.Arriving? || r.Locked? || r == Releasing(false) || r == Returned(false)
  }

  lemma StaysClosed(s: State, step: Step)
    requires Inv(s) && s.closed && Enabled(s, step)
    ensures Apply(s, step).closed && |s.readers| <= |Apply(s, step).readers|
    ensures forall i :: 0 <= i < |s.readers| && LateReader(s.readers[i]) ==> LateReader(Apply(s, step).readers[i])
    ensures forall i :: |s.readers| <= i < |Apply(s, step).readers| ==> LateReader(Apply(s, step).readers[i])
  {}

  lemma {:induction false} ClosedForGoodFrom(s: State, steps: seq<Step>, t: State, n: nat)
    requires Inv(s) && s.closed && Run(s, steps, t) && n <= |s.readers|
    requires forall i :: n <= i < |s.readers| ==> LateReader(s.readers[i])
    ensures t.closed && forall i :: n <= i < |t.readers| ==> LateReader(t.readers[i])
    decreases |steps|
  {
    if steps != [] {
      StepKeepsInv(s, steps[0]);
      StaysClosed(s, steps[0]);
      ClosedForGoodFrom(Apply(s, steps[0]), steps[1..], t, n);
    }
  }

  /** The protocol over every run from a fresh handle: everything in flight is published while closing
      begins, cancelled once a closer has struck, and gone once the handle is closed. */
  lemma CloseProtocol(s: State, steps: seq<Step>, t: State)
    requires Init(s) && Run(s, steps, t)
    ensures forall i :: 0 <= i < |t.readers| && OnNetwork(t.readers[i]) ==> t.cancel == Some(t.readers[i].req)
    ensures t.fired ==> forall i :: 0 <= i < |t.readers| && OnNetwork(t.readers[i]) ==> t.readers[i].req in t.cancelled
    ensures t.closed ==> t.body.None? && t.cancel.None? && forall i :: 0 <= i < |t.readers| ==> !OnNetwork(t.readers[i])
  {
    RunKeepsInv(s, steps, t);
    forall i | 0 <= i < |t.readers| && OnNetwork(t.readers[i])
      ensures t.cancel == Some(t.readers[i].req) && !t.closed && (t.fired ==> t.readers[i].req in t.cancelled)
    {
      assert InLock(t.readers[i]) && t.mu == ByReader(i);
      assert Live(t, t.readers[i].req);
    }
  }

  // ----- Closing completes without the server

  predicate NeedsServer(step: Step) {
    step.ServerAnswers? || step.NewReader? || step.NewCloser?
  }

  function CloserLeft(c: Closer): nat {
    match c
    case GaveUp => 0
    case Closed => 0
    case Unlocking => 1
    case Marking => 2
    case ClearDropping => 3
    case ClearFiring(_) => 4
    case Clearing => 5
    case Trying => 6
    case Striking(_) => 7
    case Snapping => 8
    case Starting => 9
  }

  /** How long the holder of `mu`, if it is not closer `j`, keeps it. */
  function HolderLeft(s: State, j: nat): nat {
    match s.mu
    case Free => 0
    case ByReader(i) => if i < |s.readers| then StepsLeft(s.readers[i]) else 0
    case ByCloser(k) => if k != j && k < |s.closers| then CloserLeft(s.closers[k]) else 0
  }

  /** The next step that brings closer `j` nearer its end without the server's help. */
  lemma CloserAdvances(s: State, j: nat) returns (step: Step)
    requires Inv(s) && s.fired && j < |s.closers| && !s.closers[j].Closed? && !s.closers[j].GaveUp?
    ensures !NeedsServer(step) && Enabled(s, step)
    ensures var t := Apply(s, step);
            && t.fired && j < |t.closers| && !t.closers[j].GaveUp?
            && 20 * CloserLeft(t.closers[j]) + HolderLeft(t, j) < 20 * CloserLeft(s.closers[j]) + HolderLeft(s, j)
  {
    match s.mu
    case Free => step := CloserMove(j);
    case ByReader(i) =>
      assert InLock(s.readers[i]);
      HolderIsNeverStuck(s, i, false);
      step := ReaderMove(i, false);
      ReadersMoveOn(s, step, i);
    case ByCloser(k) =>
      assert CloserInLock(s.closers[k]);
      step := CloserMove(k);
  }

  /** Whatever the server does, a close under way can always run to its end: the threads that hold
      `mu` let go of it by themselves, and then the handle is closed. */
  lemma {:induction false} CloseCompletes(s: State, j: nat) returns (steps: seq<Step>, t: State)
    requires Inv(s) && s.fired && j < |s.closers| && !s.closers[j].GaveUp?
    ensures Run(s, steps, t) && j < |t.closers| && t.closers[j].Closed? && t.closed && t.body.None?
    ensures forall k :: 0 <= k < |steps| ==> !NeedsServer(steps[k])
    decreases 20 * CloserLeft(s.closers[j]) + HolderLeft(s, j)
  {
    if s.closers[j].Closed? {
      steps, t := [], s;
    } else {
      var step := CloserAdvances(s, j);
      StepKeepsInv(s, step);
      var rest;
      rest, t := CloseCompletes(Apply(s, step), j);
      steps := [step] + rest;
      assert steps[1..] == rest;
    }
  }

  // ----- Every fair run of a close ends

  /** A closer going round its retry loop counts the same throughout. */
  function CloserWork(c: Closer): nat {
    match c
    case Starting => 7
    case Snapping => 6
    case Striking(_) => 6
    case Trying => 6
    case _ => CloserLeft(c)
  }

  function ReaderSum(rs: seq<Reader>): nat {
    if rs == [] then 0 else StepsLeft(rs[0]) + ReaderSum(rs[1..])
  }

  function CloserSum(cs: seq<Closer>): nat {
    if cs == [] then 0 else CloserWork(cs[0]) + CloserSum(cs[1..])
  }

  /** Steps of the retry loop left before the next TryLock. */
  function SpinSum(cs: seq<Closer>): nat {
    if cs == [] then 0
    else (if cs[0].Snapping? then 2 else if cs[0].Striking? then 1 else 0) + SpinSum(cs[1..])
  }

  lemma {:induction false} ReaderSumUpdate(rs: seq<Reader>, i: nat, r: Reader)
    requires i < |rs|
    ensures ReaderSum(rs[i := r]) == ReaderSum(rs) + StepsLeft(r) - StepsLeft(rs[i])
  {
    if i > 0 {
      ReaderSumUpdate(rs[1..], i - 1, r);
      assert rs[i := r][1..] == rs[1..][i - 1 := r];
    } else {
      assert rs[i := r][1..] == rs[1..];
    }
  }

  lemma {:induction false} CloserSumUpdate(cs: seq<Closer>, j: nat, c: Closer)
    requires j < |cs|
    ensures CloserSum(cs[j := c]) == CloserSum(cs) + CloserWork(c) - CloserWork(cs[j])
    ensures SpinSum(cs[j := c]) == SpinSum(cs) + SpinSum([c]) - SpinSum([cs[j]])
  {
    assert [c][1..] == [] && [cs[j]][1..] == [];
    if j > 0 {
      CloserSumUpdate(cs[1..], j - 1, c);
      assert cs[j := c][1..] == cs[1..][j - 1 := c];
    } else {
      assert cs[j := c][1..] == cs[1..];
    }
  }

  function Work(s: State): nat {
    ReaderSum(s.readers) + CloserSum(s.closers)
  }

  predicate Arrives(step: Step) {
    step.NewReader? || step.NewCloser?
  }

  /** A closer's step round its retry loop. */
  predicate Retries(s: State, step: Step) {
    && step.CloserMove? && step.j < |s.closers|
    && var c := s.closers[step.j];
    c.Snapping? || c.Striking? || (c.Trying? && !s.mu.Free?)
  }

  /** A step of whoever holds `mu`. */
  predicate MovesHolder(s: State, step: Step) {
    match s.mu
    case Free => false
    case ByReader(i) => MovesReader(step, i)
    case ByCloser(j) => step == CloserMove(j)
  }

  lemma ReaderStepWorks(s: State, step: Step)
    requires Enabled(s, step) && (step.ReaderMove? || step.ServerAnswers?)
    ensures Work(Apply(s, step)) < Work(s)
  {
    var t := Apply(s, step);
    ReadersMoveOn(s, step, step.i);
    assert t.closers == s.closers && t.readers == s.readers[step.i := t.readers[step.i]];
    ReaderSumUpdate(s.readers, step.i, t.readers[step.i]);
  }

  lemma CloserStepWorks(s: State, step: Step)
    requires Enabled(s, step) && (step.CloserMove? || step.CloserGivesUp?)
    ensures var t := Apply(s, step);
            if Retries(s, step) then Work(t) == Work(s) && t.mu == s.mu && (s.mu.Free? ==> SpinSum(t.closers) < SpinSum(s.closers))
            else Work(t) < Work(s)
  {
    var t, c := Apply(s, step), s.closers[step.j];
    assert t.readers == s.readers && t.closers == s.closers[step.j := t.closers[step.j]];
    CloserSumUpdate(s.closers, step.j, t.closers[step.j]);
    assert [c][1..] == [] && [t.closers[step.j]][1..] == [];
  }

  /** Every step but an arrival or a retry gets some work done for good; a retry changes nothing but how
      soon its closer tries `mu` again. */
  lemma StepWorks(s: State, step: Step)
    requires Enabled(s, step) && !Arrives(step)
    ensures var t := Apply(s, step);
            if Retries(s, step) then Work(t) == Work(s) && t.mu == s.mu && (s.mu.Free? ==> SpinSum(t.closers) < SpinSum(s.closers))
            else Work(t) < Work(s)
  {
    if step.ReaderMove? || step.ServerAnswers? { ReaderStepWorks(s, step); } else { CloserStepWorks(s, step); }
  }

  predicate Follows(states: nat -> State, moves: nat -> Step, n: nat) {
    !Arrives(moves(n)) && Enabled(states(n), moves(n)) && states(n + 1) == Apply(states(n), moves(n))
  }

  /** The holder of `mu` can move without the server. */
  predicate HolderCanMove(s: State) {
    match s.mu
    case Free => false
    case ByReader(i) => Enabled(s, ReaderMove(i, false))
    case ByCloser(j) => Enabled(s, CloserMove(j))
  }

  /** Weak fairness to the holder of `mu`: it is not passed over forever while it can move. */
  ghost predicate Fair(states: nat -> State, moves: nat -> Step) {
    forall n: nat ::
      (forall m: nat :: n <= m ==> states(m).mu == states(n).mu && HolderCanMove(states(m))) ==>
        exists m: nat :: n <= m && MovesHolder(states(m), moves(m))
  }

  lemma HolderDoesNotRetry(s: State, step: Step)
    requires LockOk(s) && MovesHolder(s, step)
    ensures !Retries(s, step)
  {
    if s.mu.ByCloser? { assert CloserInLock(s.closers[s.mu.j]); }
  }

  lemma StruckHolderCanMove(s: State)
    requires Inv(s) && s.fired && !s.mu.Free?
    ensures HolderCanMove(s)
  {
    match s.mu
    case ByReader(i) => HolderIsNeverStuck(s, i, false);
    case ByCloser(j) => assert CloserInLock(s.closers[j]);
  }

  /** Step `n` of a run is a retry. */
  predicate Spins(states: nat -> State, moves: nat -> Step, n: nat) {
    Follows(states, moves, n) && Retries(states(n), moves(n))
  }

  predicate SpinsUntil(states: nat -> State, moves: nat -> Step, n: nat, m: nat) {
    forall i :: n <= i < m ==> Spins(states, moves, i)
  }

  lemma StrikeStays(s: State, step: Step)
    requires Enabled(s, step) && s.fired
    ensures Apply(s, step).fired
  {}

  lemma {:induction false} SpinningChangesLittle(states: nat -> State, moves: nat -> Step, n: nat, m: nat)
    requires Inv(states(n)) && states(n).fired && n <= m && SpinsUntil(states, moves, n, m)
    ensures Inv(states(m)) && states(m).fired && states(m).mu == states(n).mu && Work(states(m)) == Work(states(n))
    decreases m - n
  {
    if n < m {
      assert Spins(states, moves, n);
      StepWorks(states(n), moves(n));
      StepKeepsInv(states(n), moves(n));
      StrikeStays(states(n), moves(n));
      SpinningChangesLittle(states, moves, n + 1, m);
    }
  }

  lemma {:induction false} FirstOtherStep(states: nat -> State, moves: nat -> Step, n: nat, m: nat) returns (k: nat)
    requires n <= m && !Spins(states, moves, m)
    ensures n <= k && !Spins(states, moves, k) && SpinsUntil(states, moves, n, k)
    decreases m - n
  {
    k := n;
    if Spins(states, moves, n) { k := FirstOtherStep(states, moves, n + 1, m); }
  }

  /** With `mu` held, retries are not all that happens: the holder can move, so it is let to. */
  lemma HeldMovesOn(states: nat -> State, moves: nat -> Step, n: nat) returns (m: nat)
    requires Inv(states(n)) && states(n).fired && !states(n).mu.Free? && Fair(states, moves)
    ensures n <= m && !Spins(states, moves, m)
  {
    if k: nat :| n <= k && !Spins(states, moves, k) {
      m := k;
    } else {
      forall k: nat | n <= k
        ensures states(k).mu == states(n).mu && HolderCanMove(states(k)) && LockOk(states(k))
      {
        SpinningChangesLittle(states, moves, n, k);
        StruckHolderCanMove(states(k));
      }
      m :| n <= m && MovesHolder(states(m), moves(m));
      HolderDoesNotRetry(states(m), moves(m));
    }
  }

  /** With `mu` free, the closers get round their loops to it. */
  lemma {:induction false} FreeMovesOn(states: nat -> State, moves: nat -> Step, n: nat) returns (m: nat)
    requires states(n).mu.Free?
    ensures n <= m && !Spins(states, moves, m)
    decreases SpinSum(states(n).closers)
  {
    m := n;
    if Spins(states, moves, n) {
      StepWorks(states(n), moves(n));
      m := FreeMovesOn(states, moves, n + 1);
    }
  }

  /** A reachable state after some closer's strike. */
  ghost predicate Struck(s: State) {
    Inv(s) && s.fired
  }

  lemma SomeWorkOrEnd(states: nat -> State, moves: nat -> Step, n: nat) returns (k: nat, ended: bool)
    requires Struck(states(n)) && Fair(states, moves)
    ensures n <= k && (ended ==> !Follows(states, moves, k))
    ensures !ended ==> Struck(states(k + 1)) && Work(states(k + 1)) < Work(states(n))
  {
    var m;
    if states(n).mu.Free? { m := FreeMovesOn(states, moves, n); } else { m := HeldMovesOn(states, moves, n); }
    k := FirstOtherStep(states, moves, n, m);
    SpinningChangesLittle(states, moves, n, k);
    ended := !Follows(states, moves, k);
    if !ended {
      StepWorks(states(k), moves(k));
      StepKeepsInv(states(k), moves(k));
      StrikeStays(states(k), moves(k));
    }
  }

  /** By step `j` a run from `i` has ended, or got some work done. */
  ghost predicate Nearer(states: nat -> State, moves: nat -> Step, i: nat, j: nat) {
    i <= j && (Follows(states, moves, j) ==> Struck(states(j + 1)) && Work(states(j + 1)) < Work(states(i)))
  }

  ghost predicate GetsNearer(states: nat -> State, moves: nat -> Step) {
    forall i: nat {:trigger Struck(states(i))} :: Struck(states(i)) ==> exists j: nat :: Nearer(states, moves, i, j)
  }

  lemma FairGetsNearer(states: nat -> State, moves: nat -> Step)
    requires Fair(states, moves)
    ensures GetsNearer(states, moves)
  {
    forall i: nat | Struck(states(i)) ensures exists j: nat :: Nearer(states, moves, i, j) {
      var j, ended := SomeWorkOrEnd(states, moves, i);
      assert Nearer(states, moves, i, j);
    }
  }

  /** Work cannot get less forever. */
  lemma {:induction false} Descend(states: nat -> State, moves: nat -> Step, n: nat) returns (k: nat)
    requires Struck(states(n)) && GetsNearer(states, moves)
    ensures n <= k && !Follows(states, moves, k)
    decreases Work(states(n))
  {
    k :| Nearer(states, moves, n, k);
    if Follows(states, moves, k) { k := Descend(states, moves, k + 1); }
  }

  /** After a strike, whatever the server does and however the steps are scheduled: unless somebody new
      arrives or the holder of `mu` is passed over forever, the run ends. No close retries forever. */
  lemma FairRunsEnd(states: nat -> State, moves: nat -> Step, n: nat) returns (k: nat)
    requires Struck(states(n)) && Fair(states, moves)
    ensures n <= k && !Follows(states, moves, k)
  {
    FairGetsNearer(states, moves);
    k := Descend(states, moves, n);
  }

  /** A run that cannot go on without the server or somebody new has finished every close: the handle is
      closed, unless every closer gave up. */
  lemma StoppedIsClosed(s: State)
    requires Inv(s) && forall step :: !NeedsServer(step) ==> !Enabled(s, step)
    ensures forall j :: 0 <= j < |s.closers| ==> s.closers[j].Closed? || s.closers[j].GaveUp?
    ensures (exists j :: 0 <= j < |s.closers| && s.closers[j].Closed?) ==> s.closed && s.body.None? && s.cancel.None?
  {
    forall j | 0 <= j < |s.closers| ensures s.closers[j].Closed? || s.closers[j].GaveUp? {
      assert !Enabled(s, CloserMove(j));
    }
  }
}
