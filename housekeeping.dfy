/**
 * The housekeeping of libpagekite/pkmanager.c as functions of the tables:
 * the reconnect pass of pkm_reconnect_all, the disconnect pass of
 * pkm_disconnect_unused and the tick of pkm_tick_cb with its exponential
 * backoff.  Connecting is an input: the outcome of each attempt is given.
 */
module Housekeeping {
  import opened Wrappers
  import opened State
  import opened Io
  import opened JobPile

  /* ------------------------------------------------------------------ */
  /* pkm_reconnect_all                                                   */
  /* ------------------------------------------------------------------ */

  /** The error pk_connect_ai leaves in pk_error when it fails. */
  datatype ConnectError = ConnectRejected | ConnectDuplicate | OtherConnectError

  /** What connecting to one front-end gives: a socket and the front-end's
      answers to the kite requests, or an error. */
  datatype ConnectOutcome = Connected(sockfd: nat, answers: seq<KiteRequest>) | ConnectFailed(error: ConnectError)

  /** The front-end is wanted or published in DNS. */
  predicate WantedOrInDns(t: Tunnel)
  {
    FeWanted in t.conn.status || FeInDns in t.conn.status
  }

  /** The request table the pass works on: reset to `kiteMax` unknown
      requests unless it already has one entry per kite. */
  function RequestsFor(t: Tunnel, kiteMax: nat): (r: Tunnel)
    ensures r.requestCount == kiteMax
    ensures t.requestCount == kiteMax ==> r == t
    ensures t.requestCount != kiteMax ==> r == t.(requestCount := kiteMax, requests := seq(kiteMax, _ => KiteUnknown))
  {
    if t.requestCount != kiteMax then t.(requestCount := kiteMax, requests := seq(kiteMax, _ => KiteUnknown)) else t
  }

  /** Some kite has not been answered by this front-end yet. */
  predicate Unanswered(t: Tunnel, kiteMax: nat)
  {
    exists k :: 0 <= k < |t.requests| && k < kiteMax && t.requests[k] == KiteUnknown
  }

  /** The pass tries to connect this front-end. */
  predicate Attempted(t: Tunnel, kiteMax: nat)
  {
    t.hostname.Some? && WantedOrInDns(t) && Unanswered(RequestsFor(t, kiteMax), kiteMax)
  }

  /** What the reconnect pass accumulates. */
  datatype Reconnect = Reconnect(tunnels: seq<Tunnel>, status: PkStatus, liveTunnels: int, tried: int, connected: int)

  /** The connection of a front-end about to be connected: socket closed,
      reset, and ALLOCATED plus the front-end bits it had. */
  function Disconnect(c: Conn, now: int, window: int): (r: Conn)
    ensures r.status == KeepFeBits(c.status) && r.activity == now && r.outBufferPos == 0
    ensures c.sockfd >= 0 ==> r.sockfd == -1
    ensures c.sockfd < 0 ==> r.sockfd == c.sockfd
  {
    var closed := if c.sockfd >= 0 then c.(sockfd := -1) else c;
    ResetConn(closed, {}, now, window).(status := KeepFeBits(c.status))
  }

  /** One iteration of the reconnect pass, on front-end i. */
  function ReconnectOne(r: Reconnect, i: nat, kiteMax: nat, outcome: ConnectOutcome, now: int, window: int): (r': Reconnect)
    requires i < |r.tunnels|
    ensures |r'.tunnels| == |r.tunnels|
  {
    var t := r.tunnels[i];
    if t.hostname.None? || !WantedOrInDns(t) then r
    else
      var t1 := RequestsFor(t, kiteMax);
      if !Unanswered(t1, kiteMax) then r.(tunnels := r.tunnels[i := t1])
      else
        var c1 := Disconnect(t1.conn, now, window);
        match outcome
        case Connected(fd, answers) =>
          Reconnect(r.tunnels[i := t1.(conn := c1.(sockfd := fd), requests := answers, errorCount := 0)],
                    Connecting, r.liveTunnels + 1, r.tried + 1, r.connected + 1)
        case ConnectFailed(e) =>
          var marked := c1.status + (if e == ConnectRejected then {FeRejected} else if e == ConnectDuplicate then {FeLame} else {});
          var t2 := t1.(conn := ResetConn(c1, {}, now, window).(status := KeepFeBits(marked)),
                        requestCount := 0,
                        errorCount := if t1.errorCount < 999 then t1.errorCount + 1 else t1.errorCount);
          Reconnect(r.tunnels[i := t2], if e == ConnectRejected then Rejected else Connecting, r.liveTunnels,
                    if e == ConnectDuplicate then r.tried else r.tried + 1, r.connected)
  }

  /** The reconnect pass over front-ends i and up. */
  function ReconnectFrom(r: Reconnect, i: nat, kiteMax: nat, outcomes: seq<ConnectOutcome>, now: int, window: int): (r': Reconnect)
    requires i <= |r.tunnels| == |outcomes|
    ensures |r'.tunnels| == |r.tunnels|
    decreases |r.tunnels| - i
  {
    if i == |r.tunnels| then r
    else ReconnectFrom(ReconnectOne(r, i, kiteMax, outcomes[i], now, window), i + 1, kiteMax, outcomes, now, window)
  }

  /**
   * A front-end the pass tries ends with ALLOCATED plus the front-end bits
   * it had; a failure also marks it REJECTED or LAME for those errors,
   * clears its requests and counts one more error, stopping at 999; a
   * success clears the error count.  One the pass skips is untouched.
   */
  lemma ReconnectOneSpec(r: Reconnect, i: nat, kiteMax: nat, outcome: ConnectOutcome, now: int, window: int)
    requires i < |r.tunnels|
    ensures var r' := ReconnectOne(r, i, kiteMax, outcome, now, window);
      var t := r.tunnels[i];
      var t' := r'.tunnels[i];
      (forall k :: 0 <= k < |r.tunnels| && k != i ==> r'.tunnels[k] == r.tunnels[k]) &&
      (!Attempted(t, kiteMax) ==> r'.tried == r.tried && r'.connected == r.connected && r'.status == r.status &&
                                  t'.conn == t.conn && t'.errorCount == t.errorCount) &&
      (Attempted(t, kiteMax) && outcome.Connected? ==>
         t'.conn.status == KeepFeBits(t.conn.status) && t'.conn.sockfd == outcome.sockfd &&
         t'.errorCount == 0 && r'.liveTunnels == r.liveTunnels + 1 && r'.status == Connecting) &&
      (Attempted(t, kiteMax) && outcome.ConnectFailed? ==>
         t'.conn.status == KeepFeBits(t.conn.status) +
           (if outcome.error == ConnectRejected then {FeRejected}
            else if outcome.error == ConnectDuplicate then {FeLame} else {}) &&
         t'.requestCount == 0 && t'.conn.sockfd < 0 &&
         t'.errorCount == (if t.errorCount < 999 then t.errorCount + 1 else t.errorCount) &&
         r'.liveTunnels == r.liveTunnels &&
         (outcome.error == ConnectRejected <==> r'.status == Rejected))
  {
  }

  /** The number of front-ends from i on whose attempt fails for a reason
      other than a duplicate connection. */
  function Problems(ts: seq<Tunnel>, i: nat, kiteMax: nat, outcomes: seq<ConnectOutcome>): nat
    requires i <= |ts| == |outcomes|
    decreases |ts| - i
  {
    if i == |ts| then 0
    else
      (if Attempted(ts[i], kiteMax) && outcomes[i].ConnectFailed? && outcomes[i].error != ConnectDuplicate then 1 else 0)
      + Problems(ts, i + 1, kiteMax, outcomes)
  }

  /** pkm_reconnect_all returns the number of attempts that failed other
      than as duplicates, and touches only the front-ends it tries or
      whose request table it resets. */
  lemma {:induction false} ReconnectCountsProblems(r: Reconnect, i: nat, kiteMax: nat, outcomes: seq<ConnectOutcome>, now: int, window: int)
    requires i <= |r.tunnels| == |outcomes|
    ensures var r' := ReconnectFrom(r, i, kiteMax, outcomes, now, window);
      r'.tried - r'.connected == r.tried - r.connected + Problems(r.tunnels, i, kiteMax, outcomes) &&
      (forall k :: 0 <= k < i ==> r'.tunnels[k] == r.tunnels[k]) &&
      (forall k :: i <= k < |r.tunnels| && (r.tunnels[k].hostname.None? || !WantedOrInDns(r.tunnels[k])) ==>
         r'.tunnels[k] == r.tunnels[k])
    decreases |r.tunnels| - i
  {
    if i < |r.tunnels| {
      var r1 := ReconnectOne(r, i, kiteMax, outcomes[i], now, window);
      ReconnectOneSpec(r, i, kiteMax, outcomes[i], now, window);
      ReconnectCountsProblems(r1, i + 1, kiteMax, outcomes, now, window);
      ProblemsFrame(r.tunnels, r1.tunnels, i + 1, kiteMax, outcomes);
    }
  }

  lemma {:induction false} ProblemsFrame(a: seq<Tunnel>, b: seq<Tunnel>, i: nat, kiteMax: nat, outcomes: seq<ConnectOutcome>)
    requires i <= |a| == |b| == |outcomes|
    requires forall k :: i <= k < |a| ==> a[k] == b[k]
    ensures Problems(a, i, kiteMax, outcomes) == Problems(b, i, kiteMax, outcomes)
    decreases |a| - i
  {
    if i < |a| {
      ProblemsFrame(a, b, i + 1, kiteMax, outcomes);
    }
  }

  /* ------------------------------------------------------------------ */
  /* pkm_disconnect_unused                                               */
  /* ------------------------------------------------------------------ */

  /** Some stream with a live socket belongs to tunnel fe. */
  predicate HasLiveStream(bes: seq<BeConn>, fe: nat)
  {
    exists j :: 0 <= j < |bes| && bes[j].conn.sockfd > 0 && bes[j].tunnel == Some(fe)
  }

  /** The disconnect pass closes this tunnel: it is connected, neither
      wanted nor in DNS, and carries no live stream. */
  predicate Unused(t: Tunnel, bes: seq<BeConn>, fe: nat)
  {
    t.hostname.Some? && t.conn.sockfd > 0 && !WantedOrInDns(t) && !HasLiveStream(bes, fe)
  }

  /** pkm_disconnect_unused over the whole table. */
  function DisconnectUnused(ts: seq<Tunnel>, bes: seq<BeConn>, now: int, window: int): (r: seq<Tunnel>)
    ensures |r| == |ts|
  {
    seq(|ts|, i requires 0 <= i < |ts| =>
      if Unused(ts[i], bes, i) then ts[i].(conn := Disconnect(ts[i].conn, now, window)) else ts[i])
  }

  /** The number of tunnels from i on the pass closes. */
  function CountUnused(ts: seq<Tunnel>, bes: seq<BeConn>, i: nat): nat
    requires i <= |ts|
    decreases |ts| - i
  {
    if i == |ts| then 0 else (if Unused(ts[i], bes, i) then 1 else 0) + CountUnused(ts, bes, i + 1)
  }

  /** A closed tunnel keeps only ALLOCATED and its front-end bits and loses
      its socket; every other tunnel is left as it was. */
  lemma DisconnectUnusedSpec(ts: seq<Tunnel>, bes: seq<BeConn>, now: int, window: int, i: nat)
    requires i < |ts|
    ensures var r := DisconnectUnused(ts, bes, now, window)[i];
      (Unused(ts[i], bes, i) ==>
         r.conn.status == KeepFeBits(ts[i].conn.status) && r.conn.sockfd == -1 && r.conn.activity == now &&
         r == ts[i].(conn := r.conn)) &&
      (!Unused(ts[i], bes, i) ==> r == ts[i])
  {
  }

  /** A tunnel that still carries a live stream, or is wanted or in DNS, is
      never closed. */
  lemma DisconnectSparesBusy(ts: seq<Tunnel>, bes: seq<BeConn>, now: int, window: int, i: nat, j: nat)
    requires i < |ts| && j < |bes|
    requires bes[j].conn.sockfd > 0 && bes[j].tunnel == Some(i)
    ensures DisconnectUnused(ts, bes, now, window)[i] == ts[i]
  {
    assert HasLiveStream(bes, i);
  }

  /* ------------------------------------------------------------------ */
  /* pkm_tick_cb                                                         */
  /* ------------------------------------------------------------------ */

  /** C's division of a time value by 3, truncating toward zero. */
  function DivThree(x: int): int
  {
    if x >= 0 then x / 3 else -((-x) / 3)
  }

  /** The timer keeps running unless it is disabled and the manager is idle
      for good (no network, rejected, or flying). */
  predicate TimerRuns(enableTimer: bool, status: PkStatus)
  {
    enableTimer || (status != NoNetwork && status != Rejected && status != Flying)
  }

  /** The interval the tick schedules before looking at the tunnels: a third
      longer each time, up to the maximum plus the fudge factor, or back to
      the minimum once the timer stops. */
  function Backoff(nextTick: int, timerRuns: bool, hkMin: int, maxTick: int): (r: int)
  {
    if timerRuns then
      (if nextTick + DivThree(nextTick) > maxTick then maxTick else nextTick + DivThree(nextTick))
    else 1 + hkMin
  }

  /** The backoff never exceeds its cap, and grows by a third while below
      it. */
  lemma BackoffBounds(nextTick: int, hkMin: int, maxTick: int)
    ensures Backoff(nextTick, true, hkMin, maxTick) <= maxTick
    ensures nextTick >= 0 && nextTick + nextTick / 3 <= maxTick ==>
              Backoff(nextTick, true, hkMin, maxTick) == nextTick + nextTick / 3
    ensures Backoff(nextTick, false, hkMin, maxTick) == 1 + hkMin
  {
  }

  /** The interval after k ticks with the timer running. */
  function BackoffIter(x: int, k: nat, hkMin: int, maxTick: int): int
    decreases k
  {
    if k == 0 then x else BackoffIter(Backoff(x, true, hkMin, maxTick), k - 1, hkMin, maxTick)
  }

  /** From any interval of at least 3 seconds at or below the cap, k ticks
      lengthen it by at least k seconds or bring it to the cap. */
  lemma {:induction false} BackoffReachesCap(x: int, k: nat, hkMin: int, maxTick: int)
    requires 3 <= x <= maxTick
    ensures BackoffIter(x, k, hkMin, maxTick) >= (if x + k < maxTick then x + k else maxTick)
    ensures BackoffIter(x, k, hkMin, maxTick) <= maxTick
    decreases k
  {
    if k > 0 {
      var y := Backoff(x, true, hkMin, maxTick);
      assert y >= x + 1 || y == maxTick;
      BackoffReachesCap(y, k - 1, hkMin, maxTick);
    }
  }

  /** A tunnel whose last traffic is older than four minimum intervals
      before its last ping is considered dead. */
  predicate Dead(t: Tunnel, hkMin: int)
  {
    t.conn.activity < t.lastPing - 4 * hkMin
  }

  /** What the tick accumulates over the tunnels: the manager's state and
      the interval it will schedule. */
  datatype Tick = Tick(world: World, nextTick: int)

  /** The tick's pass over tunnels i and up: a dead tunnel is marked BROKEN
      and run through update_io; an idle one is pinged, and a ping brings
      the interval back to the minimum. */
  function TickFrom(t: Tick, i: nat, now: int, inactive: int, hkMin: int, window: int): (r: Tick)
    requires i <= |t.world.tunnels|
    ensures |r.world.tunnels| == |t.world.tunnels| && |r.world.streams.bes| == |t.world.streams.bes|
    decreases |t.world.tunnels| - i
  {
    if i == |t.world.tunnels| then t
    else
      var w := t.world;
      var fe := w.tunnels[i];
      if fe.conn.sockfd < 0 then TickFrom(t, i + 1, now, inactive, hkMin, window)
      else if Dead(fe, hkMin) then
        var broken := w.(tunnels := w.tunnels[i := fe.(conn := fe.conn.(status := fe.conn.status + Broken))]);
        TickFrom(Tick(TunnelIo(broken, i, now, hkMin, window), t.nextTick), i + 1, now, inactive, hkMin, window)
      else if fe.conn.activity < inactive then
        var pinged := w.(tunnels := w.tunnels[i := fe.(lastPing := now)],
                         streams := w.streams.(sent := w.streams.sent + [PingSent(i)]));
        TickFrom(Tick(pinged, 1 + hkMin), i + 1, now, inactive, hkMin, window)
      else TickFrom(t, i + 1, now, inactive, hkMin, window)
  }

  /** The job the tick hands to the blocking thread: a full check of the
      world when the last one is old enough, else a front-end check. */
  function TickJob(lastWorldUpdate: int, checkWorldInterval: int, now: int): JobKind
  {
    if lastWorldUpdate + checkWorldInterval < now then CheckWorld else CheckFrontends
  }

  /** update_io on a tunnel changes no other tunnel. */
  lemma TunnelIoFrame(w: World, fe: nat, now: int, hkMin: int, window: int, k: nat)
    requires fe < |w.tunnels| && k < |w.tunnels| && k != fe
    ensures TunnelIo(w, fe, now, hkMin, window).tunnels[k] == w.tunnels[k]
  {
  }

  /** A tunnel that is closed for reading and still has a socket is shut
      by update_io: no socket, ALLOCATED only, no kite requests. */
  lemma TunnelIoShuts(w: World, fe: nat, now: int, hkMin: int, window: int)
    requires fe < |w.tunnels| && w.tunnels[fe].conn.sockfd > 0 && ClsRead in w.tunnels[fe].conn.status
    ensures var t := TunnelIo(w, fe, now, hkMin, window).tunnels[fe];
      t.conn.sockfd == -1 && t.conn.status == {Allocated} && t.requestCount == 0
  {
    IoStepFlows(w.tunnels[fe].conn, true);
    IoStepReadHalf(w.tunnels[fe].conn, true);
  }

  /**
   * Over a tick, a dead tunnel with a socket is shut down, an idle live one
   * is pinged, and a tunnel without a socket is left alone; a ping anywhere
   * brings the interval back to the minimum.
   */
  lemma {:induction false} TickFromSpec(t: Tick, i: nat, now: int, inactive: int, hkMin: int, window: int)
    requires i <= |t.world.tunnels|
    ensures var r := TickFrom(t, i, now, inactive, hkMin, window);
      (forall k :: 0 <= k < i ==> r.world.tunnels[k] == t.world.tunnels[k]) &&
      (forall k :: i <= k < |t.world.tunnels| ==>
         var fe := t.world.tunnels[k];
         (fe.conn.sockfd < 0 ==> r.world.tunnels[k] == fe) &&
         (fe.conn.sockfd > 0 && Dead(fe, hkMin) ==>
            r.world.tunnels[k].conn.sockfd == -1 && r.world.tunnels[k].conn.status == {Allocated}) &&
         (fe.conn.sockfd >= 0 && !Dead(fe, hkMin) && fe.conn.activity < inactive ==>
            r.world.tunnels[k].lastPing == now && PingSent(k) in r.world.streams.sent && r.nextTick == 1 + hkMin))
    decreases |t.world.tunnels| - i
  {
    if i < |t.world.tunnels| {
      var w := t.world;
      var fe := w.tunnels[i];
      if fe.conn.sockfd < 0 {
        TickFromSpec(t, i + 1, now, inactive, hkMin, window);
      } else if Dead(fe, hkMin) {
        var broken := w.(tunnels := w.tunnels[i := fe.(conn := fe.conn.(status := fe.conn.status + Broken))]);
        var t1 := Tick(TunnelIo(broken, i, now, hkMin, window), t.nextTick);
        forall k | 0 <= k < |w.tunnels| && k != i
          ensures t1.world.tunnels[k] == w.tunnels[k]
        {
          TunnelIoFrame(broken, i, now, hkMin, window, k);
        }
        if fe.conn.sockfd > 0 {
          TunnelIoShuts(broken, i, now, hkMin, window);
        }
        TickFromSpec(t1, i + 1, now, inactive, hkMin, window);
      } else if fe.conn.activity < inactive {
        var pinged := w.(tunnels := w.tunnels[i := fe.(lastPing := now)],
                         streams := w.streams.(sent := w.streams.sent + [PingSent(i)]));
        TickFromSpec(Tick(pinged, 1 + hkMin), i + 1, now, inactive, hkMin, window);
        TickKeepsPings(Tick(pinged, 1 + hkMin), i + 1, now, inactive, hkMin, window, i);
      } else {
        TickFromSpec(t, i + 1, now, inactive, hkMin, window);
      }
    }
  }

  /** The pass only appends to what has been written, never lengthens the
      interval once a ping has shortened it, and leaves earlier tunnels alone. */
  lemma {:induction false} TickKeepsPings(t: Tick, i: nat, now: int, inactive: int, hkMin: int, window: int, k: nat)
    requires i <= |t.world.tunnels|
    requires PingSent(k) in t.world.streams.sent && t.nextTick == 1 + hkMin
    ensures var r := TickFrom(t, i, now, inactive, hkMin, window);
      PingSent(k) in r.world.streams.sent && r.nextTick == 1 + hkMin
    decreases |t.world.tunnels| - i
  {
    if i < |t.world.tunnels| {
      var w := t.world;
      var fe := w.tunnels[i];
      if fe.conn.sockfd < 0 {
        TickKeepsPings(t, i + 1, now, inactive, hkMin, window, k);
      } else if Dead(fe, hkMin) {
        var broken := w.(tunnels := w.tunnels[i := fe.(conn := fe.conn.(status := fe.conn.status + Broken))]);
        var w1 := TunnelIo(broken, i, now, hkMin, window);
        TunnelIoKeepsSent(broken, i, now, hkMin, window);
        TickKeepsPings(Tick(w1, t.nextTick), i + 1, now, inactive, hkMin, window, k);
      } else if fe.conn.activity < inactive {
        var pinged := w.(tunnels := w.tunnels[i := fe.(lastPing := now)],
                         streams := w.streams.(sent := w.streams.sent + [PingSent(i)]));
        TickKeepsPings(Tick(pinged, 1 + hkMin), i + 1, now, inactive, hkMin, window, k);
      } else {
        TickKeepsPings(t, i + 1, now, inactive, hkMin, window, k);
      }
    }
  }

  /** update_io on a tunnel only appends to what has been written. */
  lemma TunnelIoKeepsSent(w: World, fe: nat, now: int, hkMin: int, window: int)
    requires fe < |w.tunnels|
    ensures var r := TunnelIo(w, fe, now, hkMin, window);
      |w.streams.sent| <= |r.streams.sent| && r.streams.sent[..|w.streams.sent|] == w.streams.sent
  {
    var t := w.tunnels[fe];
    if t.conn.sockfd > 0 {
      var st := IoStepOf(t.conn, true);
      var bes1 := if st.op.Some? then FlowTunnel(w.streams.bes, Some(fe), st.op.value) else w.streams.bes;
      var streams1 := w.streams.(bes := bes1);
      if st.eof != {} {
        EofSweepKeepsSent(streams1, fe, 0);
      }
    }
  }

  lemma {:induction false} EofSweepKeepsSent(s: Streams, fe: nat, i: nat)
    requires i <= |s.bes|
    ensures var r := EofSweep(s, fe, i);
      |s.sent| <= |r.sent| && r.sent[..|s.sent|] == s.sent
    decreases |s.bes| - i
  {
    if i < |s.bes| {
      if s.bes[i].tunnel == Some(fe) && s.bes[i].conn.status != {} {
        var s1 := BeIo(MarkEof(s, i), Some(fe), i);
        EofSweepKeepsSent(s1, fe, i + 1);
        var r := EofSweep(s1, fe, i + 1);
        assert r.sent[..|s.sent|] == r.sent[..|s1.sent|][..|s.sent|];
      } else {
        EofSweepKeepsSent(s, fe, i + 1);
      }
    }
  }
}
