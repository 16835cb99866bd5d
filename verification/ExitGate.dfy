/** The exit fail-open: the data-path liveness gate and the takeover it controls. Times are in
    nanoseconds, handshake ages in seconds. */
module ExitGate {

  const STALL: int := 60_000_000_000

  datatype PathState = IceReady | RelayReady | PathFailed | PathClosed | Unready(name: string)

  /** A peer-stat sample; a handshake age of -1 means there never was one. */
  datatype PeerStat = PeerStat(state: PathState, rx: nat, tx: nat, handshakeAgo: int)

  /** What looking up an unknown peer yields. */
  const ZERO_STAT := PeerStat(Unready(""), 0, 0, 0)

  datatype Gate = Gate(
    everReady: bool, lastProgress: int, lastRx: nat, lastTx: nat, lastHandshakeAgo: int, seenHandshake: bool)

  const NEW_GATE := Gate(false, 0, 0, 0, 0, false)

  predicate Ready(s: PathState) { s.IceReady? || s.RelayReady? }

  predicate Over(s: PathState) { s.PathFailed? || s.PathClosed? }

  /** Whether a sample shows progress over what the gate saw last. */
  predicate ShowsProgress(g: Gate, st: PeerStat) {
    || st.rx > g.lastRx || st.tx > g.lastTx
    || (st.handshakeAgo >= 0 && (!g.seenHandshake || st.handshakeAgo < g.lastHandshakeAgo))
  }

  function Fed(g: Gate, st: PeerStat, now: int): Gate {
    var first := Ready(st.state) && !g.everReady;
    Gate(g.everReady || first, if ShowsProgress(g, st) || first then now else g.lastProgress,
         st.rx, st.tx, st.handshakeAgo, true)
  }

  predicate Verdict(g: Gate, st: PeerStat, now: int) {
    var f := Fed(g, st, now);
    f.everReady && (Over(st.state) || now - f.lastProgress > STALL)
  }

  class ExitPathGate {
    var everReady: bool
    var lastProgress: int
    var lastRx: nat
    var lastTx: nat
    var lastHandshakeAgo: int
    var seenHandshake: bool

    ghost function View(): Gate
      reads this
    {
      Gate(everReady, lastProgress, lastRx, lastTx, lastHandshakeAgo, seenHandshake)
    }

    constructor ()
      ensures View() == NEW_GATE
    {
      everReady, lastProgress, lastRx, lastTx, lastHandshakeAgo, seenHandshake := false, 0, 0, 0, 0, false;
    }

    method Evaluate(st: PeerStat, now: int) returns (dead: bool)
      modifies this
      ensures View() == Fed(old(View()), st, now) && dead == Verdict(old(View()), st, now)
    {
      var progress := st.rx > lastRx || st.tx > lastTx;
      if st.handshakeAgo >= 0 && (!seenHandshake || st.handshakeAgo < lastHandshakeAgo) {
        progress := true;
      }
      lastRx, lastTx := st.rx, st.tx;
      lastHandshakeAgo, seenHandshake := st.handshakeAgo, true;
      if progress { lastProgress := now; }
      var ready := st.state == IceReady || st.state == RelayReady;
      if ready && !everReady {
        everReady := true;
        lastProgress := now;
      }
      if st.state == PathFailed || st.state == PathClosed { return everReady; }
      return everReady && now - lastProgress > STALL;
    }
  }

  // ----- What the gate means, from the samples alone

  datatype Sample = Sample(st: PeerStat, now: int)

  function GateAfter(h: seq<Sample>): Gate {
    if h == [] then NEW_GATE else Fed(GateAfter(h[..|h|-1]), h[|h|-1].st, h[|h|-1].now)
  }

  predicate InTimeOrder(h: seq<Sample>) {
    forall i, j :: 0 <= i < j < |h| ==> h[i].now <= h[j].now
  }

  /** Sample `i` shows counters grown, or a younger handshake, than sample `i - 1`. */
  predicate ProgressAt(h: seq<Sample>, i: nat)
    requires i < |h|
  {
    var st := h[i].st;
    if i == 0 then st.rx > 0 || st.tx > 0 || st.handshakeAgo >= 0
    else
      var prev := h[i-1].st;
      st.rx > prev.rx || st.tx > prev.tx || (0 <= st.handshakeAgo < prev.handshakeAgo)
  }

  predicate FirstReadyAt(h: seq<Sample>, i: nat)
    requires i < |h|
  {
    Ready(h[i].st.state) && forall k :: 0 <= k < i ==> !Ready(h[k].st.state)
  }

  predicate EverReady(h: seq<Sample>) {
    exists i :: 0 <= i < |h| && Ready(h[i].st.state)
  }

  /** Something at sample `i` restarts the stall clock. */
  predicate SignAt(h: seq<Sample>, i: nat)
    requires i < |h|
  {
    ProgressAt(h, i) || FirstReadyAt(h, i)
  }

  /** The path once worked, and is reported over or has shown no sign of life for more than a minute. */
  predicate PathDead(h: seq<Sample>)
    requires h != []
  {
    var last := h[|h|-1];
    EverReady(h) &&
    (Over(last.st.state) || forall i {:trigger SignAt(h, i)} :: 0 <= i < |h| && SignAt(h, i) ==> last.now - h[i].now > 60_000_000_000)
  }

  /** In numbers: a path ready once and silent since is dead when it fails, when it closes, and after a minute;
      one that was never ready is not. */
  lemma ReadyThenSilent(s: PathState, u: PathState, rx: nat, tx: nat, ago: int, now: nat)
    ensures var h := [Sample(PeerStat(s, rx, tx, ago), 0), Sample(PeerStat(u, rx, tx, ago), now)];
            && (s == IceReady || s == RelayReady ==>
                  (PathDead(h) <==> u == PathFailed || u == PathClosed || now > 60_000_000_000))
            && (s.Unready? && u != IceReady && u != RelayReady ==> !PathDead(h))
  {
    var h := [Sample(PeerStat(s, rx, tx, ago), 0), Sample(PeerStat(u, rx, tx, ago), now)];
    if s == IceReady || s == RelayReady {
      assert Ready(h[0].st.state) && SignAt(h, 0) && !SignAt(h, 1);
    }
  }

  /** The gate remembers the last sample and, once ready, when the last sign of life was. */
  predicate Tracks(g: Gate, h: seq<Sample>) {
    && g.everReady == EverReady(h)
    && g.seenHandshake == (h != [])
    && g.lastRx == (if h == [] then 0 else h[|h|-1].st.rx)
    && g.lastTx == (if h == [] then 0 else h[|h|-1].st.tx)
    && (h != [] ==> g.lastHandshakeAgo == h[|h|-1].st.handshakeAgo)
    && (g.everReady ==> LastSign(h, g.lastProgress))
  }

  /** The latest sign of life in `h` was at `time`. */
  predicate LastSign(h: seq<Sample>, time: int) {
    && (forall i {:trigger SignAt(h, i)} :: 0 <= i < |h| && SignAt(h, i) ==> h[i].now <= time)
    && (exists i {:trigger SignAt(h, i)} :: 0 <= i < |h| && SignAt(h, i) && h[i].now == time)
  }

  lemma SignsStay(h: seq<Sample>, s: Sample, i: nat)
    requires i < |h|
    ensures SignAt(h + [s], i) <==> SignAt(h, i)
  {
    var t := h + [s];
    assert t[i] == h[i] && (i > 0 ==> t[i-1] == h[i-1]);
    assert forall k :: 0 <= k < i ==> t[k] == h[k];
  }

  lemma NewSign(g: Gate, h: seq<Sample>, s: Sample)
    requires Tracks(g, h)
    ensures SignAt(h + [s], |h|) <==> ShowsProgress(g, s.st) || (Ready(s.st.state) && !g.everReady)
    ensures EverReady(h + [s]) <==> g.everReady || Ready(s.st.state)
  {
    var t, n := h + [s], |h|;
    assert t[n] == s && forall k :: 0 <= k < n ==> t[k] == h[k];
    if g.everReady {
      var k :| 0 <= k < n && Ready(h[k].st.state);
      assert Ready(t[k].st.state);
    } else {
      assert forall k :: 0 <= k < n ==> !Ready(h[k].st.state);
      if Ready(s.st.state) { assert Ready(t[n].st.state); }
    }
  }

  lemma LastSignNew(h: seq<Sample>, s: Sample)
    requires InTimeOrder(h + [s]) && SignAt(h + [s], |h|)
    ensures LastSign(h + [s], s.now)
  {
    var t, n := h + [s], |h|;
    forall i | 0 <= i < |t| && SignAt(t, i) ensures t[i].now <= s.now {
      if i < n { assert t[i].now <= t[n].now; }
    }
    assert SignAt(t, n) && t[n].now == s.now;
  }

  lemma LastSignKept(h: seq<Sample>, s: Sample, time: int)
    requires LastSign(h, time) && !SignAt(h + [s], |h|)
    ensures LastSign(h + [s], time)
  {
    var t := h + [s];
    forall i | 0 <= i < |t| && SignAt(t, i) ensures t[i].now <= time {
      SignsStay(h, s, i);
      assert t[i] == h[i];
    }
    var i :| 0 <= i < |h| && SignAt(h, i) && h[i].now == time;
    SignsStay(h, s, i);
    assert t[i] == h[i];
  }

  lemma FedTracks(g: Gate, h: seq<Sample>, s: Sample)
    requires Tracks(g, h) && InTimeOrder(h + [s])
    ensures Tracks(Fed(g, s.st, s.now), h + [s])
  {
    NewSign(g, h, s);
    if SignAt(h + [s], |h|) {
      LastSignNew(h, s);
    } else if g.everReady {
      LastSignKept(h, s, g.lastProgress);
    }
  }

  lemma {:induction false} GateTracks(h: seq<Sample>)
    requires InTimeOrder(h)
    ensures Tracks(GateAfter(h), h)
  {
    if h != [] {
      var init := h[..|h|-1];
      GateTracks(init);
      assert h == init + [h[|h|-1]];
      FedTracks(GateAfter(init), init, h[|h|-1]);
    }
  }

  /** Over any samples in time order, the gate says dead exactly when the path is. */
  lemma GateIsExact(h: seq<Sample>)
    requires h != [] && InTimeOrder(h)
    ensures var last := h[|h|-1];
            Verdict(GateAfter(h[..|h|-1]), last.st, last.now) <==> PathDead(h)
  {
    var last := h[|h|-1];
    GateTracks(h);
    var g := GateAfter(h);
    if g.everReady {
      var i :| 0 <= i < |h| && SignAt(h, i) && h[i].now == g.lastProgress;
    }
  }

  /** What the gate's own description calls a handshake: one happened or was renewed. */
  predicate HandshakeHappened(prev: PeerStat, st: PeerStat) {
    st.handshakeAgo >= 0 && (prev.handshakeAgo < 0 || st.handshakeAgo < prev.handshakeAgo)
  }

  /** The gate sees every handshake but the very first after a sample without one: that one counts only
      through the byte counters. */
  lemma FirstHandshakeIsMissed(h: seq<Sample>, i: nat)
    requires 0 < i < |h|
    ensures var prev, st := h[i-1].st, h[i].st;
            (ProgressAt(h, i) <==> st.rx > prev.rx || st.tx > prev.tx || HandshakeHappened(prev, st))
            <==> !(prev.handshakeAgo < 0 <= st.handshakeAgo && st.rx <= prev.rx && st.tx <= prev.tx)
  {}

  /** It takes byte counters that started over, since completing a handshake receives bytes: the peer was
      created anew between the samples, or another provider was chosen. */
  lemma FirstHandshakeMissedExample()
    ensures var h := [Sample(PeerStat(RelayReady, 444, 296, -1), 0), Sample(PeerStat(RelayReady, 92, 148, 3), 70_000_000_000)];
            PathDead(h) && HandshakeHappened(h[0].st, h[1].st)
  {
    var h := [Sample(PeerStat(RelayReady, 444, 296, -1), 0), Sample(PeerStat(RelayReady, 92, 148, 3), 70_000_000_000)];
    assert Ready(h[0].st.state);
    assert !SignAt(h, 1);
  }

  /** A peer missing from the snapshot reads as a fresh handshake exactly when the gate has seen none or
      only older ones. */
  lemma UnknownPeerAsProgress(g: Gate)
    ensures ShowsProgress(g, ZERO_STAT) <==> !g.seenHandshake || g.lastHandshakeAgo > 0
  {}

  // ----- A gate that has seen another provider

  /** Once the path has been ready, signs before that do not matter. */
  lemma ReadySettles(h: seq<Sample>, r: nat)
    requires h != [] && InTimeOrder(h) && r < |h| && FirstReadyAt(h, r)
    ensures PathDead(h) <==> Over(h[|h|-1].st.state) || StaleFrom(h, r)
  {
    assert SignAt(h, r);
    if StaleFrom(h, r) {
      forall i | 0 <= i < |h| && SignAt(h, i) ensures h[|h|-1].now - h[i].now > STALL {
        if i < r { assert h[i].now <= h[r].now; }
      }
    }
  }

  lemma FirstReadyIn(h: seq<Sample>) returns (r: nat)
    requires EverReady(h)
    ensures r < |h| && FirstReadyAt(h, r)
  {
    r := 0;
    while !Ready(h[r].st.state)
      invariant r < |h| && forall k :: 0 <= k < r ==> !Ready(h[k].st.state)
      decreases |h| - r
    {
      r := r + 1;
    }
  }

  lemma SameFirstReady(prior: seq<Sample>, own: seq<Sample>, i: nat)
    requires !EverReady(prior) && i < |own|
    ensures FirstReadyAt(prior + own, |prior| + i) <==> FirstReadyAt(own, i)
  {
    var h, n := prior + own, |prior|;
    if FirstReadyAt(h, n + i) {
      forall k | 0 <= k < i ensures !Ready(own[k].st.state) { assert h[n + k] == own[k]; }
    }
    if FirstReadyAt(own, i) {
      forall k | 0 <= k < n + i ensures !Ready(h[k].st.state) { assert h[k] == if k < n then prior[k] else own[k - n]; }
    }
  }

  lemma SameProgress(prior: seq<Sample>, own: seq<Sample>, i: nat)
    requires 0 < i < |own|
    ensures ProgressAt(prior + own, |prior| + i) <==> ProgressAt(own, i)
  {
    var h, n := prior + own, |prior|;
    assert h[n + i] == own[i] && h[n + i - 1] == own[i - 1];
  }

  lemma SameSigns(prior: seq<Sample>, own: seq<Sample>, r: nat, i: nat)
    requires !EverReady(prior) && r <= i < |own| && FirstReadyAt(own, r)
    ensures SignAt(prior + own, |prior| + i) <==> SignAt(own, i)
  {
    SameFirstReady(prior, own, i);
    if i > 0 { SameProgress(prior, own, i); }
  }

  /** All signs from `r` on are stale. */
  predicate StaleFrom(h: seq<Sample>, r: nat) {
    forall i {:trigger SignAt(h, i)} :: r <= i < |h| && SignAt(h, i) ==> h[|h|-1].now - h[i].now > STALL
  }

  lemma StaleAlone(prior: seq<Sample>, own: seq<Sample>, r: nat)
    requires !EverReady(prior) && r < |own| && FirstReadyAt(own, r) && StaleFrom(prior + own, |prior| + r)
    ensures StaleFrom(own, r)
  {
    forall i | r <= i < |own| && SignAt(own, i) ensures own[|own|-1].now - own[i].now > STALL {
      SameSigns(prior, own, r, i);
      assert SignAt(prior + own, |prior| + i);
    }
  }

  lemma StaleBehind(prior: seq<Sample>, own: seq<Sample>, r: nat)
    requires !EverReady(prior) && r < |own| && FirstReadyAt(own, r) && StaleFrom(own, r)
    ensures StaleFrom(prior + own, |prior| + r)
  {
    var h, n := prior + own, |prior|;
    forall i | n + r <= i < |h| && SignAt(h, i) ensures h[|h|-1].now - h[i].now > STALL {
      SameSigns(prior, own, r, i - n);
      assert SignAt(own, i - n);
    }
  }

  /** Samples of a provider that was never ready leave no trace in later verdicts. */
  lemma NeverReadyLeavesNoTrace(prior: seq<Sample>, own: seq<Sample>)
    requires own != [] && InTimeOrder(prior + own) && !EverReady(prior)
    ensures PathDead(prior + own) <==> PathDead(own)
  {
    var h, n := prior + own, |prior|;
    OwnInOrder(prior, own);
    if EverReady(own) {
      var r := FirstReadyIn(own);
      SameFirstReady(prior, own, r);
      ReadySettles(own, r);
      ReadySettles(h, n + r);
      if StaleFrom(own, r) { StaleBehind(prior, own, r); }
      if StaleFrom(h, n + r) { StaleAlone(prior, own, r); }
    } else {
      assert !EverReady(h);
    }
  }

  lemma OwnInOrder(prior: seq<Sample>, own: seq<Sample>)
    requires InTimeOrder(prior + own)
    ensures InTimeOrder(own)
  {
    forall i, j | 0 <= i < j < |own| ensures own[i].now <= own[j].now {
      assert (prior + own)[|prior| + i] == own[i] && (prior + own)[|prior| + j] == own[j];
    }
  }

  /** The gate is never reset. After another provider's samples it judges the next one by its own, whatever
      they will be, exactly when the earlier one was never ready. */
  lemma SwitchIsCleanIffNeverReady(prior: seq<Sample>)
    requires InTimeOrder(prior)
    ensures (forall own: seq<Sample> :: own != [] && InTimeOrder(prior + own) ==>
               (PathDead(prior + own) <==> PathDead(own)))
            <==> !EverReady(prior)
  {
    if EverReady(prior) {
      var now := prior[|prior|-1].now;
      var own := [Sample(PeerStat(PathFailed, 0, 0, -1), now)];
      var h := prior + own;
      var i :| 0 <= i < |prior| && Ready(prior[i].st.state);
      assert h[i] == prior[i] && EverReady(h) && !EverReady(own);
      assert InTimeOrder(h);
      assert PathDead(h) && !PathDead(own);
    } else {
      forall own: seq<Sample> | own != [] && InTimeOrder(prior + own) ensures PathDead(prior + own) <==> PathDead(own) {
        NeverReadyLeavesNoTrace(prior, own);
      }
    }
  }

  /** Some sign of life in `h` is at most a minute old. */
  predicate Lively(h: seq<Sample>)
    requires h != []
  {
    exists i {:trigger SignAt(h, i)} :: 0 <= i < |h| && SignAt(h, i) && h[|h|-1].now - h[i].now <= STALL
  }

  /** And otherwise, sample by sample: a provider not yet ready itself is judged as on its own exactly while
      it is not over and something was lively lately; a ready one, exactly if it is over or the earlier
      samples do not change whether anything was. */
  lemma InheritedVerdict(prior: seq<Sample>, own: seq<Sample>)
    requires own != [] && EverReady(prior)
    ensures var h, over := prior + own, Over(own[|own|-1].st.state);
            (PathDead(h) <==> PathDead(own)) <==>
              if EverReady(own) then over || (Lively(h) <==> Lively(own)) else !over && Lively(h)
  {
    var h := prior + own;
    assert h[|h|-1] == own[|own|-1];
    var i :| 0 <= i < |prior| && Ready(prior[i].st.state);
    assert h[i] == prior[i] && EverReady(h);
  }

  // ----- The takeover

  /** A netmap peer, as far as the exit is concerned. */
  datatype NetPeer = NetPeer(appId: string, isExit: bool)

  datatype Takeover = Takeover(selected: bool, active: bool, gateDead: bool, appId: string, gate: Gate)

  const NO_TAKEOVER := Takeover(false, false, false, "", NEW_GATE)

  /** The first peer that is an exit. */
  function Chosen(peers: seq<NetPeer>): seq<NetPeer> {
    if peers == [] then [] else if peers[0].isExit then [peers[0]] else Chosen(peers[1..])
  }

  predicate FirstExitAt(peers: seq<NetPeer>, k: nat) {
    k < |peers| && peers[k].isExit && forall j :: 0 <= j < k ==> !peers[j].isExit
  }

  predicate HasExit(peers: seq<NetPeer>) {
    exists p :: p in peers && p.isExit
  }

  /** The exit taken from `peers`: one is selected if there is any, and it is the one no other precedes. */
  ghost predicate Selects(t: Takeover, peers: seq<NetPeer>) {
    (t.selected <==> HasExit(peers)) && forall k: nat :: FirstExitAt(peers, k) ==> t.appId == peers[k].appId
  }

  lemma {:induction false} ChosenIsFirst(peers: seq<NetPeer>)
    ensures Chosen(peers) == [] <==> !HasExit(peers)
    ensures forall k: nat :: FirstExitAt(peers, k) ==> Chosen(peers) == [peers[k]]
  {
    if peers != [] && !peers[0].isExit {
      ChosenIsFirst(peers[1..]);
      forall k: nat | FirstExitAt(peers, k) ensures Chosen(peers) == [peers[k]] {
        assert peers[1..][k - 1] == peers[k] && FirstExitAt(peers[1..], k - 1);
      }
      assert HasExit(peers) ==> HasExit(peers[1..]) by {
        if p :| p in peers && p.isExit { assert p in peers[1..]; }
      }
    }
  }

  /** Applying a netmap; `ok` is whether the routing commands succeed. */
  function Applied(t: Takeover, peers: seq<NetPeer>, ok: bool): Takeover {
    var exit := Chosen(peers);
    var routed :=
      if exit != [] && !t.active && !t.gateDead then (if ok then t.(active := true) else t)
      else if exit == [] && t.active then (if ok then t.(active := false, gateDead := false) else t)
      else t;
    if exit != [] then routed.(selected := true, appId := exit[0].appId) else routed.(selected := false)
  }

  /** One tick of the gate watch, with the sample of the chosen peer. */
  function Ticked(t: Takeover, st: PeerStat, now: int, ok: bool): Takeover {
    if !t.selected || t.appId == "" then t
    else
      var fed := t.(gate := Fed(t.gate, st, now));
      var dead := Verdict(t.gate, st, now);
      if dead && t.active then (if ok then fed.(active := false, gateDead := true) else fed)
      else if !dead && t.gateDead then (if ok then fed.(active := true, gateDead := false) else fed)
      else fed
  }

  class MessageHandler {
    var exitSelected: bool
    var exitTakeoverActive: bool
    var exitGateDead: bool
    var exitPeerAppId: string
    const exitGate: ExitPathGate

    ghost function View(): Takeover
      reads this, exitGate
    {
      Takeover(exitSelected, exitTakeoverActive, exitGateDead, exitPeerAppId, exitGate.View())
    }

    constructor ()
      ensures View() == NO_TAKEOVER && fresh(exitGate)
    {
      exitSelected, exitTakeoverActive, exitGateDead, exitPeerAppId := false, false, false, "";
      exitGate := new ExitPathGate();
    }

    method ApplyRemotePeers(peers: seq<NetPeer>, ok: bool)
      modifies this
      ensures View() == Applied(old(View()), peers, ok) && Selects(View(), peers)
      ensures !HasExit(peers) ==> exitPeerAppId == old(exitPeerAppId)
    {
      AppliedSelects(View(), peers, ok);
      var selected, appId := false, "";
      var i := 0;
      while i < |peers|
        invariant 0 <= i <= |peers| && !selected && Chosen(peers) == Chosen(peers[i..])
      {
        if peers[i].isExit {
          selected, appId := true, peers[i].appId;
          break;
        }
        i := i + 1;
      }
      assert Chosen(peers) == if selected then [peers[i]] else [];
      if selected && !exitTakeoverActive && !exitGateDead {
        if ok { exitTakeoverActive := true; }
      } else if !selected && exitTakeoverActive {
        if ok { exitTakeoverActive, exitGateDead := false, false; }
      }
      if selected {
        exitSelected, exitPeerAppId := true, appId;
      } else {
        exitSelected := false;
      }
    }

    /** `source` is whether the device manager offers peer statistics at all. */
    method ReconcileExitGate(source: bool, stats: map<string, PeerStat>, now: int, ok: bool)
      modifies this, exitGate
      ensures !source ==> View() == old(View())
      ensures source ==>
                View() == Ticked(old(View()), StatOf(stats, old(exitPeerAppId)), now, ok)
    {
      if !exitSelected || exitPeerAppId == "" { return; }
      if !source { return; }
      var dead := exitGate.Evaluate(StatOf(stats, exitPeerAppId), now);
      if dead && exitTakeoverActive {
        if !ok { return; }
        exitTakeoverActive, exitGateDead := false, true;
      } else if !dead && exitGateDead {
        if !ok { return; }
        exitTakeoverActive, exitGateDead := true, false;
      }
    }
  }

  /** What the watch sees of the chosen peer. */
  function StatOf(stats: map<string, PeerStat>, appId: string): PeerStat {
    if appId in stats then stats[appId] else ZERO_STAT
  }

  datatype Act = Apply(peers: seq<NetPeer>, ok: bool) | Tick(stats: map<string, PeerStat>, now: int, ok: bool)

  function Next(t: Takeover, act: Act): Takeover {
    match act
    case Apply(peers, ok) => Applied(t, peers, ok)
    case Tick(stats, now, ok) => Ticked(t, StatOf(stats, t.appId), now, ok)
  }

  function After(t: Takeover, acts: seq<Act>): Takeover
    decreases |acts|
  {
    if acts == [] then t else After(Next(t, acts[0]), acts[1..])
  }

  /** Whatever commands fail, the takeover is never installed while the gate is closed. */
  lemma {:induction false} NeverActiveWhileDead(t: Takeover, acts: seq<Act>)
    requires !(t.active && t.gateDead)
    ensures var u := After(t, acts); !(u.active && u.gateDead)
    decreases |acts|
  {
    if acts != [] {
      NeverActiveWhileDead(Next(t, acts[0]), acts[1..]);
    }
  }

  /** A netmap picks the exit, and routes to it unless the gate is closed; without one the routing goes. Failed
      commands change neither routing nor gate. */
  lemma AppliedSelects(t: Takeover, peers: seq<NetPeer>, ok: bool)
    ensures var u := Applied(t, peers, ok);
            && Selects(u, peers) && (!HasExit(peers) ==> u.appId == t.appId) && u.gate == t.gate
            && (ok && HasExit(peers) ==> (u.active <==> t.active || !t.gateDead) && u.gateDead == t.gateDead)
            && (ok && !HasExit(peers) ==> !u.active && (u.gateDead <==> t.gateDead && !t.active))
            && (!ok ==> u.active == t.active && u.gateDead == t.gateDead)
  {
    ChosenIsFirst(peers);
  }

  /** A tick leaves the selection alone; failed commands, or no exit to watch, leave the rest too. */
  lemma TickKeeps(t: Takeover, st: PeerStat, now: int, ok: bool)
    ensures var u := Ticked(t, st, now, ok);
            && u.selected == t.selected && u.appId == t.appId
            && (!t.selected || t.appId == "" ==> u == t)
            && (!ok ==> u.active == t.active && u.gateDead == t.gateDead)
  {}

  /** The peers of the last netmap of a run, or of the one before it. */
  function LastNetmap(before: seq<NetPeer>, acts: seq<Act>): seq<NetPeer> {
    if acts == [] then before
    else if acts[|acts|-1].Apply? then acts[|acts|-1].peers
    else LastNetmap(before, acts[..|acts|-1])
  }

  lemma {:induction false} AfterLast(t: Takeover, acts: seq<Act>)
    requires acts != []
    ensures After(t, acts) == Next(After(t, acts[..|acts|-1]), acts[|acts|-1])
    decreases |acts|
  {
    var init := acts[..|acts|-1];
    if |acts| == 1 {
      assert acts[1..] == [] && init == [];
    } else {
      assert acts[1..][..|acts|-2] == init[1..];
      AfterLast(Next(t, acts[0]), acts[1..]);
    }
  }

  /** Over any run, whatever commands fail, the exit is the one of the last netmap. */
  lemma {:induction false} SelectionFollowsNetmap(t: Takeover, before: seq<NetPeer>, acts: seq<Act>)
    requires Selects(t, before)
    ensures Selects(After(t, acts), LastNetmap(before, acts))
    decreases |acts|
  {
    if acts != [] {
      var init, last := acts[..|acts|-1], acts[|acts|-1];
      AfterLast(t, acts);
      SelectionFollowsNetmap(t, before, init);
      if last.Apply? { AppliedSelects(After(t, init), last.peers, last.ok); }
    }
  }

  lemma {:induction false} ActiveIffSelected(t: Takeover, acts: seq<Act>)
    requires t.active <==> t.selected && !t.gateDead
    requires forall i :: 0 <= i < |acts| ==> acts[i].ok
    ensures var u := After(t, acts); u.active <==> u.selected && !u.gateDead
    decreases |acts|
  {
    if acts != [] {
      assert acts[0].ok;
      ActiveIffSelected(Next(t, acts[0]), acts[1..]);
    }
  }

  /** While commands succeed, the takeover is installed exactly when the last netmap had an exit and the gate
      is open. */
  lemma ActiveIffWanted(acts: seq<Act>)
    requires forall i :: 0 <= i < |acts| ==> acts[i].ok
    ensures var u := After(NO_TAKEOVER, acts); u.active <==> HasExit(LastNetmap([], acts)) && !u.gateDead
  {
    ActiveIffSelected(NO_TAKEOVER, acts);
    assert !HasExit([]) && Selects(NO_TAKEOVER, []);
    SelectionFollowsNetmap(NO_TAKEOVER, [], acts);
  }

  /** A tick whose commands succeed makes the takeover follow the verdict, except after a failed install:
      a live path then leaves it off until the next netmap. */
  lemma TickFollowsVerdict(t: Takeover, st: PeerStat, now: int)
    requires t.selected && t.appId != "" && !(t.active && t.gateDead)
    ensures var dead := Verdict(t.gate, st, now);
            (Ticked(t, st, now, true).active <==> !dead) <==> dead || t.active || t.gateDead
  {}

  lemma {:induction false} TicksNeverInstall(t: Takeover, acts: seq<Act>)
    requires !t.active && !t.gateDead && forall i :: 0 <= i < |acts| ==> acts[i].Tick?
    ensures !After(t, acts).active
    decreases |acts|
  {
    if acts != [] {
      assert acts[0].Tick?;
      TicksNeverInstall(Next(t, acts[0]), acts[1..]);
    }
  }

  /** It happens: an exit whose installation failed once stays off however long its path is alive. */
  lemma FailedInstallIsNotRetried(exit: NetPeer, live: map<string, PeerStat>, now: int, later: seq<Act>)
    requires exit.isExit && exit.appId != "" && !Verdict(NEW_GATE, StatOf(live, exit.appId), now)
    requires forall i :: 0 <= i < |later| ==> later[i].Tick?
    ensures var u := After(NO_TAKEOVER, [Apply([exit], false), Tick(live, now, true)]);
            u.selected && u.appId == exit.appId && !u.active && !After(u, later).active
  {
    var first, second := Apply([exit], false), Tick(live, now, true);
    assert [first, second][1..] == [second] && [second][1..] == [];
    var t := Next(NO_TAKEOVER, first);
    assert Chosen([exit]) == [exit];
    assert After(t, [second]) == Next(t, second);
    TicksNeverInstall(Next(t, second), later);
  }

  // ----- The takeover over whole runs

  /** A sample the gate was fed, with the provider it was taken from. */
  datatype Judged = Judged(appId: string, sample: Sample)

  function History(t: Takeover, acts: seq<Act>): seq<Judged>
    decreases |acts|
  {
    if acts == [] then [] else
    (if acts[0].Tick? && t.selected && t.appId != ""
     then [Judged(t.appId, Sample(StatOf(acts[0].stats, t.appId), acts[0].now))] else [])
    + History(Next(t, acts[0]), acts[1..])
  }

  function Samples(js: seq<Judged>): (h: seq<Sample>)
    ensures |h| == |js| && forall i :: 0 <= i < |js| ==> h[i] == js[i].sample
  {
    seq(|js|, i requires 0 <= i < |js| => js[i].sample)
  }

  lemma GateFed(h: seq<Sample>, s: Sample)
    ensures GateAfter(h + [s]) == Fed(GateAfter(h), s.st, s.now)
  {
    assert (h + [s])[..|h|] == h;
  }

  lemma SamplesAdd(h: seq<Sample>, j: Judged, js: seq<Judged>)
    ensures h + Samples([j] + js) == h + [j.sample] + Samples(js)
  {}

  /** The gate is what the samples of the run make of it. */
  lemma {:induction false} GateFollowsRun(t: Takeover, acts: seq<Act>, h: seq<Sample>)
    requires t.gate == GateAfter(h)
    ensures After(t, acts).gate == GateAfter(h + Samples(History(t, acts)))
    decreases |acts|
  {
    if acts == [] {
      assert h + Samples([]) == h;
    } else {
      var u := Next(t, acts[0]);
      var rest := History(u, acts[1..]);
      if acts[0].Tick? && t.selected && t.appId != "" {
        var j := Judged(t.appId, Sample(StatOf(acts[0].stats, t.appId), acts[0].now));
        GateFed(h, j.sample);
        SamplesAdd(h, j, rest);
        GateFollowsRun(u, acts[1..], h + [j.sample]);
      } else {
        assert History(t, acts) == rest;
        GateFollowsRun(u, acts[1..], h);
      }
    }
  }

  /** Over any run whose commands succeed and whose samples come in time order: after a tick the takeover is
      off exactly when the path is dead, judged from all the samples fed so far, of whichever provider. */
  lemma {:induction false} FailsOpenExactly(acts: seq<Act>, tick: Act)
    requires tick.Tick? && tick.ok && forall i :: 0 <= i < |acts| ==> acts[i].ok
    requires After(NO_TAKEOVER, acts).selected && After(NO_TAKEOVER, acts).appId != ""
    requires InTimeOrder(Samples(History(NO_TAKEOVER, acts) + History(After(NO_TAKEOVER, acts), [tick])))
    ensures var t := After(NO_TAKEOVER, acts);
            var h := Samples(History(NO_TAKEOVER, acts) + History(t, [tick]));
            |h| > 0 && (Next(t, tick).active <==> !PathDead(h))
  {
    var t := After(NO_TAKEOVER, acts);
    var before := Samples(History(NO_TAKEOVER, acts));
    GateFollowsRun(NO_TAKEOVER, acts, []);
    assert [] + before == before;
    ActiveIffSelected(NO_TAKEOVER, acts);
    TickHistory(t, tick, History(NO_TAKEOVER, acts));
    TickFailsOpen(t, tick, before);
  }

  lemma TickHistory(t: Takeover, tick: Act, before: seq<Judged>)
    requires tick.Tick? && t.selected && t.appId != ""
    ensures Samples(before + History(t, [tick])) == Samples(before) + [Sample(StatOf(tick.stats, t.appId), tick.now)]
  {
    assert [tick][1..] == [];
    assert History(t, [tick]) == [Judged(t.appId, Sample(StatOf(tick.stats, t.appId), tick.now))];
  }

  lemma TickFailsOpen(t: Takeover, tick: Act, before: seq<Sample>)
    requires tick.Tick? && tick.ok && t.selected && t.appId != "" && t.gate == GateAfter(before)
    requires t.active <==> !t.gateDead
    requires InTimeOrder(before + [Sample(StatOf(tick.stats, t.appId), tick.now)])
    ensures Next(t, tick).active <==> !PathDead(before + [Sample(StatOf(tick.stats, t.appId), tick.now)])
  {
    var h := before + [Sample(StatOf(tick.stats, t.appId), tick.now)];
    assert h[..|h|-1] == before;
    GateIsExact(h);
  }

  /** So it follows the current provider's own samples if no earlier provider of the run was ever ready. */
  lemma {:induction false} FailsOpenOnItsOwn(acts: seq<Act>, tick: Act, earlier: seq<Judged>, own: seq<Judged>)
    requires tick.Tick? && tick.ok && forall i :: 0 <= i < |acts| ==> acts[i].ok
    requires After(NO_TAKEOVER, acts).selected && After(NO_TAKEOVER, acts).appId != ""
    requires History(NO_TAKEOVER, acts) + History(After(NO_TAKEOVER, acts), [tick]) == earlier + own && own != []
    requires InTimeOrder(Samples(earlier + own)) && !EverReady(Samples(earlier))
    ensures Next(After(NO_TAKEOVER, acts), tick).active <==> !PathDead(Samples(own))
  {
    FailsOpenExactly(acts, tick);
    assert Samples(earlier + own) == Samples(earlier) + Samples(own);
    NeverReadyLeavesNoTrace(Samples(earlier), Samples(own));
  }

  const READY := PeerStat(RelayReady, 1, 1, 0)
  const CONNECTING := PeerStat(PathFailed, 0, 0, -1)

  /** And not otherwise: with every command succeeding, switching from a provider that was ready to one whose
      first attempt fails drops the takeover, although that one's own samples do not call for it. */
  lemma SwitchDropsTakeover(a: NetPeer, b: NetPeer)
    requires a.isExit && b.isExit && a.appId != "" && b.appId != ""
    ensures var acts := [Apply([a], true), Tick(map[a.appId := READY], 0, true), Apply([b], true)];
            var t := After(NO_TAKEOVER, acts);
            var u := Next(t, Tick(map[b.appId := CONNECTING], 1, true));
            && t.active && !u.active && u.gateDead && u.selected && u.appId == b.appId
            && !PathDead([Sample(CONNECTING, 1)])
  {
    var x, y, z := Apply([a], true), Tick(map[a.appId := READY], 0, true), Apply([b], true);
    assert [x, y, z][1..] == [y, z] && [y, z][1..] == [z] && [z][1..] == [];
    var t1 := Next(NO_TAKEOVER, x);
    var t2 := Next(t1, y);
    assert Chosen([a]) == [a] && Chosen([b]) == [b];
    assert After(NO_TAKEOVER, [x, y, z]) == After(t1, [y, z]) == After(t2, [z]) == Next(t2, z);
  }
}
