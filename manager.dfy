/**
 * struct pk_manager of libpagekite/pkmanager.c: the fixed tables of kites,
 * tunnels (front-ends) and backend streams, the blocking-job pile, and the
 * manager-wide state, with the operations that update them in place.  Each
 * method is proved against the functions of Pool, Tables, Io and
 * Housekeeping that say what it does to the tables.
 *
 * The fields of the process-wide pk_state that these operations use
 * (live_streams, live_tunnels, force_update, conn_eviction_idle_s) are
 * fields here.  Time is a parameter.
 */
module Manager {
  import opened Wrappers
  import opened Utils
  import opened State
  import opened Io
  import opened Pool
  import opened Tables
  import opened Housekeeping
  import opened JobPile

  /** The outcome of pkm_add_kite: the slot filled, or ERR_NO_MORE_KITES. */
  datatype AddKiteResult = KiteAdded(slot: nat) | NoMoreKites

  /** The manager state no table operation changes: timer and check
      bookkeeping and the tunables. */
  datatype Settings = Settings(
    enableTimer: bool,
    lastDnsUpdate: int,
    lastWorldUpdate: int,
    forceUpdate: bool,
    connEvictionIdleS: int,
    wantSpareFrontends: int,
    intervalFudgeFactor: int)

  function Larger(a: int, b: int): int
  {
    if a < b then b else a
  }

  class PkManager {
    const cfg: Config
    const kites: array<Kite>
    const tunnels: array<Tunnel>
    const beConns: array<BeConn>
    const jobs: Pile
    const dynamicDnsUrl: Option<string>

    var status: PkStatus
    var liveStreams: int
    var liveTunnels: int
    var nextTick: int
    var enableTimer: bool
    var lastDnsUpdate: int
    var lastWorldUpdate: int
    var forceUpdate: bool
    var connEvictionIdleS: int
    var wantSpareFrontends: int
    var intervalFudgeFactor: int
    /** The EOF chunks and pings written onto tunnels and the tick wake-ups
        requested, oldest first. */
    var sent: seq<Emit>

    ghost predicate Valid()
      reads this, jobs, jobs.pile
    {
      jobs.Valid() && beConns.Length > 0 && cfg.housekeepingIntervalMin > 0
    }

    /** The backend table with the counters update_io keeps for it. */
    function StreamsOf(): Streams
      reads this, beConns
    {
      Streams(beConns[..], liveStreams, sent)
    }

    /** The part of the manager update_io on a tunnel works on. */
    function WorldOf(): World
      reads this, tunnels, beConns
    {
      World(tunnels[..], StreamsOf(), liveTunnels, status, nextTick)
    }

    function SettingsOf(): Settings
      reads this
    {
      Settings(enableTimer, lastDnsUpdate, lastWorldUpdate, forceUpdate, connEvictionIdleS,
               wantSpareFrontends, intervalFudgeFactor)
    }

    /**
     * pkm_manager_init: the table sizes are raised to the configured minima,
     * every kite slot is empty, every tunnel has no address and no socket,
     * every stream slot is reset to UNKNOWN with no socket, the job pile has
     * one slot per stream and tunnel, and the timer starts at the minimum
     * housekeeping interval.  `fudgeSeed` stands for rand().
     */
    constructor (cfg: Config, kiteCount: int, tunnelCount: int, connCount: int, now: int,
                 fudgeSeed: nat, evictionIdleS: int, dynamicDnsUrl: Option<string>)
      requires cfg.housekeepingIntervalMin > 0 && cfg.minConnAlloc > 0
      ensures Valid()
      ensures kites.Length == Larger(kiteCount, cfg.minKiteAlloc)
      ensures tunnels.Length == Larger(tunnelCount, cfg.minFeAlloc)
      ensures beConns.Length == Larger(connCount, cfg.minConnAlloc)
      ensures forall k :: 0 <= k < kites.Length ==> kites[k] == EmptyKite
      ensures forall k :: 0 <= k < tunnels.Length ==>
                tunnels[k] == EmptyTunnel(0).(requests := seq(kites.Length, _ => KiteUnknown))
      ensures forall k :: 0 <= k < beConns.Length ==>
                beConns[k] == BeConn(ResetConn(ClosedConn(0), {}, now, cfg.windowKb), None, "")
      ensures jobs.pile.Length == beConns.Length + tunnels.Length && jobs.count == 0
      ensures forall k :: 0 <= k < jobs.pile.Length ==> jobs.pile[k] == Job(NoJob, None)
      ensures status == Startup && nextTick == 1 + cfg.housekeepingIntervalMin && sent == []
      ensures liveStreams == 0 && liveTunnels == 0
      ensures SettingsOf() == Settings(true, 0, 0, true, evictionIdleS, 0,
                                       2 * (fudgeSeed % cfg.housekeepingIntervalMin))
      ensures fresh(kites) && fresh(tunnels) && fresh(beConns) && fresh(jobs) && fresh(jobs.pile)
    {
      this.cfg := cfg;
      var nk := Larger(kiteCount, cfg.minKiteAlloc);
      var nt := Larger(tunnelCount, cfg.minFeAlloc);
      var nc := Larger(connCount, cfg.minConnAlloc);
      kites := new Kite[nk](_ => EmptyKite);
      tunnels := new Tunnel[nt](_ => EmptyTunnel(0).(requests := seq(nk, _ => KiteUnknown)));
      beConns := new BeConn[nc](_ => BeConn(ResetConn(ClosedConn(0), {}, now, cfg.windowKb), None, ""));
      jobs := new Pile(nc + nt);
      this.dynamicDnsUrl := dynamicDnsUrl;
      status := Startup;
      liveStreams := 0;
      liveTunnels := 0;
      wantSpareFrontends := 0;
      intervalFudgeFactor := 2 * (fudgeSeed % cfg.housekeepingIntervalMin);
      lastWorldUpdate := 0;
      lastDnsUpdate := 0;
      forceUpdate := true;
      nextTick := 1 + cfg.housekeepingIntervalMin;
      enableTimer := true;
      connEvictionIdleS := evictionIdleS;
      sent := [];
    }

    /* ---------------------------------------------------------------- */
    /* Flow control and update_io                                       */
    /* ---------------------------------------------------------------- */

    /** pkm_parse_eof: the bits the EOF token names are added to the
        stream's status; nothing is cleared and nothing else changes. */
    method ParseEof(b: nat, tok: Option<string>)
      requires b < beConns.Length
      modifies beConns
      ensures beConns[..] == old(beConns[..])[b := old(beConns[b]).(conn := old(beConns[b]).conn.(status := old(beConns[b]).conn.status + EofBits(tok)))]
    {
      var pkb := beConns[b];
      var eofRead := false;
      var eofWrite := false;
      if tok.Some? {
        var s := tok.value;
        var p := 0;
        while p < |s|
          invariant 0 <= p <= |s|
          invariant beConns[..] == old(beConns[..])
          invariant eofRead <==> exists k :: 0 <= k < p && IsReadLetter(s[k])
          invariant eofWrite <==> exists k :: 0 <= k < p && IsWriteLetter(s[k])
        {
          if s[p] == 'R' || s[p] == 'r' {
            eofRead := true;
          } else if s[p] == 'W' || s[p] == 'w' {
            eofWrite := true;
          }
          p := p + 1;
        }
      }
      assert eofRead == NamesRead(tok) && eofWrite == NamesWrite(tok);
      if !eofWrite && !eofRead {
        eofWrite, eofRead := true, true;
      }
      var c := pkb.conn;
      if eofWrite {
        c := c.(status := c.status + {EndRead});
      }
      if eofRead {
        c := c.(status := c.status + {EndWrite});
      }
      assert c.status == pkb.conn.status + EofBits(tok);
      beConns[b] := pkb.(conn := c);
    }

    /** pkm_flow_control_tunnel: TNL_BLOCKED follows the operation on every
        stream of tunnel `fe`. */
    method FlowControlTunnel(fe: Option<nat>, op: FlowOp)
      modifies beConns
      ensures beConns[..] == FlowTunnel(old(beConns[..]), fe, op)
    {
      var i := 0;
      while i < beConns.Length
        invariant 0 <= i <= beConns.Length
        invariant forall k :: 0 <= k < i ==> beConns[k] == FlowTunnelOne(old(beConns[k]), fe, op)
        invariant forall k :: i <= k < beConns.Length ==> beConns[k] == old(beConns[k])
      {
        var pkb := beConns[i];
        if pkb.tunnel == fe {
          if TnlBlocked in pkb.conn.status {
            if op == TunnelUnblocked {
              beConns[i] := pkb.(conn := pkb.conn.(status := pkb.conn.status - {TnlBlocked}));
            }
          } else if op == TunnelBlocked {
            beConns[i] := pkb.(conn := pkb.conn.(status := pkb.conn.status + {TnlBlocked}));
          }
        }
        i := i + 1;
      }
    }

    /** pkm_free_be_conn: the slot's status becomes UNKNOWN. */
    method FreeBeConn(b: nat)
      requires b < beConns.Length
      modifies beConns
      ensures beConns[..] == old(beConns[..])[b := old(beConns[b]).(conn := old(beConns[b]).conn.(status := {}))]
      ensures IsFreeSlot(beConns[b])
    {
      beConns[b] := beConns[b].(conn := beConns[b].conn.(status := {}));
    }

    /** pkm_update_io(fe, pkb) for stream slot b. */
    method UpdateConnIo(fe: Option<nat>, b: nat) returns (flows: int)
      requires b < beConns.Length
      modifies this, beConns
      ensures StreamsOf() == BeIo(old(StreamsOf()), fe, b)
      ensures liveTunnels == old(liveTunnels) && status == old(status) && nextTick == old(nextTick)
      ensures SettingsOf() == old(SettingsOf())
    {
      var pkb := beConns[b];
      if pkb.conn.sockfd <= 0 {
        return 0;
      }
      var c := FlowControlConn(pkb.conn, DestOp(pkb.conn));
      var eof, op;
      c, eof, flows, op := CloseStep(c, false);
      beConns[b] := pkb.(conn := c);
      if op.Some? {
        FlowControlTunnel(fe, op.value);
      }
      if eof != {} {
        sent := sent + [EofSent(fe, pkb.sid, eof)];
      }
      if flows == 0 {
        FreeBeConn(b);
        liveStreams := liveStreams - 1;
        beConns[b] := beConns[b].(conn := beConns[b].conn.(sockfd := -1));
      }
    }

    /** pkm_update_io(fe, NULL) for tunnel fe. */
    method UpdateTunnelIo(fe: nat, now: int) returns (flows: int)
      requires fe < tunnels.Length
      modifies this, tunnels, beConns
      ensures WorldOf() == TunnelIo(old(WorldOf()), fe, now, cfg.housekeepingIntervalMin, cfg.windowKb)
      ensures SettingsOf() == old(SettingsOf())
    {
      ghost var w := WorldOf();
      var t := tunnels[fe];
      if t.conn.sockfd <= 0 {
        return 0;
      }
      var c, eof, op;
      c, eof, flows, op := CloseStep(t.conn, true);
      ghost var st := IoStepOf(t.conn, true);
      tunnels[fe] := t.(conn := c);
      if op.Some? {
        FlowControlTunnel(Some(fe), op.value);
      }
      ghost var streams1 := w.streams.(bes := if st.op.Some? then FlowTunnel(w.streams.bes, Some(fe), st.op.value) else w.streams.bes);
      assert StreamsOf() == streams1;
      if eof != {} {
        SweepEof(fe);
      }
      ghost var streams2 := if st.eof != {} then EofSweep(streams1, fe, 0) else streams1;
      assert StreamsOf() == streams2;
      assert tunnels[..] == w.tunnels[fe := t.(conn := st.conn)];
      if flows == 0 {
        CloseTunnel(fe, now);
      }
    }

    /** The end of update_io on a tunnel with no flow left: it leaves the
        live count, the manager is in PROBLEMS, the slot is reset with no
        socket and no requests, and a tick is requested. */
    method CloseTunnel(fe: nat, now: int)
      requires fe < tunnels.Length
      modifies this, tunnels
      ensures liveTunnels == old(liveTunnels) - 1 && status == Problems
      ensures tunnels[..] == old(tunnels[..])[fe := old(tunnels[fe]).(conn := ResetConn(old(tunnels[fe]).conn, {Allocated}, now, cfg.windowKb).(sockfd := -1), requestCount := 0)]
      ensures nextTick == if liveTunnels < 1 then 1 + cfg.housekeepingIntervalMin else old(nextTick)
      ensures sent == old(sent) + [TickRequested] && liveStreams == old(liveStreams)
      ensures SettingsOf() == old(SettingsOf())
    {
      liveTunnels := liveTunnels - 1;
      status := Problems;
      tunnels[fe] := tunnels[fe].(conn := ResetConn(tunnels[fe].conn, {Allocated}, now, cfg.windowKb), requestCount := 0);
      if liveTunnels < 1 {
        nextTick := 1 + cfg.housekeepingIntervalMin;
      }
      sent := sent + [TickRequested];
      tunnels[fe] := tunnels[fe].(conn := tunnels[fe].conn.(sockfd := -1));
    }

    /** The loop of update_io over the streams of a closing tunnel: each
        live one gets both EOF bits and its own update_io. */
    method SweepEof(fe: nat)
      modifies this, beConns
      ensures StreamsOf() == EofSweep(old(StreamsOf()), fe, 0)
      ensures liveTunnels == old(liveTunnels) && status == old(status) && nextTick == old(nextTick)
      ensures SettingsOf() == old(SettingsOf())
    {
      var i := 0;
      while i < beConns.Length
        invariant 0 <= i <= beConns.Length
        invariant EofSweep(StreamsOf(), fe, i) == EofSweep(old(StreamsOf()), fe, 0)
        invariant liveTunnels == old(liveTunnels) && status == old(status) && nextTick == old(nextTick)
        invariant SettingsOf() == old(SettingsOf())
      {
        var pkb := beConns[i];
        if pkb.tunnel == Some(fe) && pkb.conn.status != {} {
          beConns[i] := pkb.(conn := pkb.conn.(status := pkb.conn.status + {EndWrite, EndRead}));
          var _ := UpdateConnIo(Some(fe), i);
        }
        i := i + 1;
      }
    }

    /** The status-bit part of update_io on one connection, step by step:
        the read half, then the write half. */
    static method CloseStep(c: Conn, isTunnel: bool) returns (r: Conn, eof: set<EofKind>, flows: int, op: Option<FlowOp>)
      ensures IoStep(r, eof, flows, op) == IoStepOf(c, isTunnel)
    {
      r := c;
      eof := {};
      flows := 2;
      op := None;
      if ClsRead in r.status || EndRead in r.status {
        if EndRead !in r.status {
          eof := eof + {EofRead};
        }
        r := r.(status := r.status + {EndRead, ClsRead});
        flows := flows - 1;
        if isTunnel {
          r := r.(status := r.status + {ClsWrite});
        }
      }
      if ClsWrite in r.status {
        if EndWrite !in r.status {
          eof := eof + {EofWrite};
        }
        r := r.(status := r.status + {EndWrite, ClsWrite}, outBufferPos := 0);
        flows := flows - 1;
      } else if 0 < r.outBufferPos || WantWrite in r.status {
        op := Some(TunnelBlocked);
      } else {
        if EndWrite in r.status {
          r := r.(status := r.status + {ClsWrite});
          flows := flows - 1;
        } else {
          op := Some(TunnelUnblocked);
        }
      }
    }

    /* ---------------------------------------------------------------- */
    /* The stream pool                                                  */
    /* ---------------------------------------------------------------- */

    /** pkm_alloc_be_conn for stream `sid` of tunnel `fe`. */
    method AllocBeConn(fe: Option<nat>, sid: string, now: int) returns (r: Option<nat>)
      requires Valid()
      modifies this, beConns
      ensures Alloc(StreamsOf(), r) == AllocResult(old(StreamsOf()), fe, sid, now, connEvictionIdleS, cfg.windowKb)
      ensures liveTunnels == old(liveTunnels) && status == old(status) && nextTick == old(nextTick)
      ensures SettingsOf() == old(SettingsOf())
    {
      var maxAge := now;
      var oldest: Option<nat> := None;
      var shift := SidShift(sid);
      var n := beConns.Length;
      var i := 0;
      while i < n
        invariant 0 <= i <= n
        invariant FirstFreeFrom(beConns[..], shift, 0) == FirstFreeFrom(beConns[..], shift, i)
        invariant oldest.Some? ==> oldest.value < n && beConns[oldest.value].conn.activity == maxAge
        invariant Oldest(beConns[..], shift, now) == OldestFrom(beConns[..], shift, i, maxAge, oldest)
      {
        var slot := (i + shift as int) % n;
        var pkb := beConns[slot];
        if Allocated !in pkb.conn.status {
          beConns[slot] := BeConn(ResetConn(pkb.conn, {Allocated}, now, cfg.windowKb), fe, sid);
          return Some(slot);
        }
        if pkb.conn.activity <= maxAge {
          maxAge := pkb.conn.activity;
          oldest := Some(slot);
        }
        i := i + 1;
      }
      if oldest.Some? {
        var j := oldest.value;
        var evicting := connEvictionIdleS != 0 && connEvictionIdleS < now - beConns[j].conn.activity;
        if evicting {
          Evict(fe, sid, now, j);
          return Some(j);
        }
      }
      return None;
    }

    /** The eviction in pkm_alloc_be_conn: slot j is closed both ways, run
        through update_io on behalf of tunnel `fe`, and claimed for `sid`. */
    method Evict(fe: Option<nat>, sid: string, now: int, j: nat)
      requires j < beConns.Length
      modifies this, beConns
      ensures var s := old(StreamsOf());
        var closing := s.(bes := s.bes[j := s.bes[j].(conn := s.bes[j].conn.(status := s.bes[j].conn.status + {ClsWrite, ClsRead}))]);
        var after := BeIo(closing, fe, j);
        StreamsOf() == after.(bes := after.bes[j := Claim(after.bes[j], fe, sid, now, cfg.windowKb)])
      ensures liveTunnels == old(liveTunnels) && status == old(status) && nextTick == old(nextTick)
      ensures SettingsOf() == old(SettingsOf())
    {
      beConns[j] := beConns[j].(conn := beConns[j].conn.(status := beConns[j].conn.status + {ClsWrite, ClsRead}));
      var _ := UpdateConnIo(fe, j);
      beConns[j] := BeConn(ResetConn(beConns[j].conn, {Allocated}, now, cfg.windowKb), fe, sid);
    }

    /* ---------------------------------------------------------------- */
    /* The kite and front-end tables                                    */
    /* ---------------------------------------------------------------- */

    /** pkm_add_kite: fills the first empty slot, or fails with
        ERR_NO_MORE_KITES and changes nothing. */
    method AddKite(protocol: string, publicDomain: string, publicPort: int, authSecret: string,
                   localDomain: string, localPort: int) returns (r: AddKiteResult)
      modifies kites
      ensures match FirstFreeKite(old(kites[..]))
        case Some(j) =>
          r == KiteAdded(j) &&
          kites[..] == old(kites[..])[j := StoredKite(protocol, publicDomain, publicPort, authSecret, localDomain, localPort)]
        case None =>
          r == NoMoreKites && kites[..] == old(kites[..])
    {
      var which := 0;
      while which < kites.Length
        invariant 0 <= which <= kites.Length
        invariant forall k :: 0 <= k < which ==> kites[k].protocol != ""
      {
        if kites[which].protocol == "" {
          break;
        }
        which := which + 1;
      }
      if which >= kites.Length {
        return NoMoreKites;
      }
      kites[which] := StoredKite(protocol, publicDomain, publicPort, authSecret, localDomain, localPort);
      return KiteAdded(which);
    }

    /** pkm_add_frontend_ai: refuses an address already in the table,
        otherwise claims the first slot with no address, or fails with
        ERR_NO_MORE_FRONTENDS. */
    method AddFrontendAi(ai: AddrInfo, hostname: string, port: int, flags: Status) returns (r: AddFrontendResult)
      modifies tunnels
      ensures r == AddFrontendChoice(old(tunnels[..]), ai)
      ensures r.FrontendAdded? ==>
                tunnels[..] == old(tunnels[..])[r.slot := NewFrontend(old(tunnels[r.slot]), ai, hostname, port, flags)]
      ensures !r.FrontendAdded? ==> tunnels[..] == old(tunnels[..])
    {
      var adding: Option<nat> := None;
      var which := 0;
      while which < tunnels.Length
        invariant 0 <= which <= tunnels.Length
        invariant tunnels[..] == old(tunnels[..])
        invariant forall k :: 0 <= k < which ==> !SameAddress(tunnels[k], ai)
        invariant adding == FirstFreeTunnel(tunnels[..which])
      {
        var fe := tunnels[which];
        if fe.ai.None? {
          if adding.None? {
            adding := Some(which);
          }
        } else if ai.addrlen > 0 && AddrCmp(fe.ai.value.addr, ai.addr) == 0 {
          assert SameAddress(tunnels[which], ai);
          return AlreadyPresent;
        }
        FirstFreeTunnelGrows(tunnels[..], which);
        which := which + 1;
      }
      assert tunnels[..which] == tunnels[..];
      if adding.None? {
        return NoMoreFrontends;
      }
      var j := adding.value;
      tunnels[j] := NewFrontend(tunnels[j], ai, hostname, port, flags);
      return FrontendAdded(j);
    }

    /* ---------------------------------------------------------------- */
    /* Housekeeping                                                     */
    /* ---------------------------------------------------------------- */

    /** pkm_reconnect_all with `outcomes[i]` the result of connecting to
        front-end i; returns the number of attempts that failed other than
        as duplicates. */
    method ReconnectAll(outcomes: seq<ConnectOutcome>, now: int) returns (problems: int)
      requires |outcomes| == tunnels.Length
      modifies this, tunnels
      ensures var r := ReconnectFrom(Reconnect(old(tunnels[..]), old(status), old(liveTunnels), 0, 0), 0,
                                     kites.Length, outcomes, now, cfg.windowKb);
        tunnels[..] == r.tunnels && status == r.status && liveTunnels == r.liveTunnels &&
        problems == r.tried - r.connected
      ensures StreamsOf() == old(StreamsOf()) && nextTick == old(nextTick) && SettingsOf() == old(SettingsOf())
    {
      var tried, connected := 0, 0;
      ghost var target := ReconnectFrom(Reconnect(tunnels[..], status, liveTunnels, 0, 0), 0,
                                        kites.Length, outcomes, now, cfg.windowKb);
      var i := 0;
      while i < tunnels.Length
        invariant 0 <= i <= tunnels.Length
        invariant ReconnectFrom(Reconnect(tunnels[..], status, liveTunnels, tried, connected), i,
                                kites.Length, outcomes, now, cfg.windowKb) == target
        invariant StreamsOf() == old(StreamsOf()) && nextTick == old(nextTick) && SettingsOf() == old(SettingsOf())
      {
        tried, connected := ReconnectTunnel(i, outcomes[i], now, tried, connected);
        i := i + 1;
      }
      problems := tried - connected;
    }

    /** One iteration of pkm_reconnect_all, on front-end i. */
    method ReconnectTunnel(i: nat, outcome: ConnectOutcome, now: int, tried: int, connected: int)
      returns (tried': int, connected': int)
      requires i < tunnels.Length
      modifies this, tunnels
      ensures Reconnect(tunnels[..], status, liveTunnels, tried', connected') ==
              ReconnectOne(Reconnect(old(tunnels[..]), old(status), old(liveTunnels), tried, connected), i,
                           kites.Length, outcome, now, cfg.windowKb)
      ensures StreamsOf() == old(StreamsOf()) && nextTick == old(nextTick) && SettingsOf() == old(SettingsOf())
    {
      tried', connected' := tried, connected;
      var kiteMax := kites.Length;
      var t := tunnels[i];
      if t.hostname.None? || !(FeWanted in t.conn.status || FeInDns in t.conn.status) {
        return;
      }
      if t.requestCount != kiteMax {
        t := t.(requestCount := kiteMax, requests := seq(kiteMax, _ => KiteUnknown));
        tunnels[i] := t;
      }
      assert t == RequestsFor(old(tunnels[i]), kiteMax);
      assert tunnels[..] == old(tunnels[..])[i := t];
      var reconnect := CountUnknown(t.requests, kiteMax);
      if reconnect == 0 {
        return;
      }
      tried' := tried' + 1;
      status := Connecting;
      var c := Disconnect(t.conn, now, cfg.windowKb);
      ghost var r1 := ReconnectOne(Reconnect(old(tunnels[..]), old(status), old(liveTunnels), tried, connected), i,
                                   kites.Length, outcome, now, cfg.windowKb);
      assert Unanswered(t, kiteMax);
      match outcome {
        case Connected(fd, answers) =>
          tunnels[i] := t.(conn := c.(sockfd := fd), requests := answers, errorCount := 0);
          liveTunnels := liveTunnels + 1;
          connected' := connected' + 1;
          assert tunnels[..] == old(tunnels[..])[i := tunnels[i]];
          assert tunnels[..] == r1.tunnels;
          assert status == r1.status;
          assert liveTunnels == r1.liveTunnels;
          assert tried' == r1.tried;
        case ConnectFailed(e) =>
          var st := c.status;
          if e == ConnectRejected {
            st := st + {FeRejected};
            status := Rejected;
          } else if e == ConnectDuplicate {
            st := st + {FeLame};
            tried' := tried' - 1;
          }
          tunnels[i] := t.(conn := ResetConn(c, {}, now, cfg.windowKb).(status := KeepFeBits(st)),
                           requestCount := 0,
                           errorCount := if t.errorCount < 999 then t.errorCount + 1 else t.errorCount);
          ghost var marked := c.status + (if e == ConnectRejected then {FeRejected} else if e == ConnectDuplicate then {FeLame} else {});
          assert st == marked;
          assert tunnels[..] == old(tunnels[..])[i := tunnels[i]];
          assert tunnels[..] == r1.tunnels;
          assert status == r1.status;
          assert tried' == r1.tried;
      }
    }

    /** pkm_disconnect_unused: closes every connected tunnel that is
        neither wanted nor in DNS and carries no live stream; returns how
        many it closed. */
    method DisconnectUnused(now: int) returns (disconnected: int)
      modifies tunnels
      ensures tunnels[..] == Housekeeping.DisconnectUnused(old(tunnels[..]), beConns[..], now, cfg.windowKb)
      ensures disconnected == CountUnused(old(tunnels[..]), beConns[..], 0)
    {
      disconnected := 0;
      var i := 0;
      while i < tunnels.Length
        invariant 0 <= i <= tunnels.Length
        invariant forall k :: 0 <= k < i ==>
                    tunnels[k] == Housekeeping.DisconnectUnused(old(tunnels[..]), beConns[..], now, cfg.windowKb)[k]
        invariant forall k :: i <= k < tunnels.Length ==> tunnels[k] == old(tunnels[k])
        invariant disconnected + CountUnused(old(tunnels[..]), beConns[..], i) == CountUnused(old(tunnels[..]), beConns[..], 0)
      {
        var fe := tunnels[i];
        if fe.hostname.Some? && fe.conn.sockfd > 0 && !(FeWanted in fe.conn.status || FeInDns in fe.conn.status) {
          var disconnect := true;
          var j := 0;
          while j < beConns.Length
            invariant 0 <= j <= beConns.Length
            invariant disconnect <==> forall k :: 0 <= k < j ==> !(beConns[k].conn.sockfd > 0 && beConns[k].tunnel == Some(i))
            invariant !disconnect ==> HasLiveStream(beConns[..], i)
          {
            if beConns[j].conn.sockfd > 0 && beConns[j].tunnel == Some(i) {
              disconnect := false;
              break;
            }
            j := j + 1;
          }
          if disconnect {
            var c := fe.conn.(sockfd := -1);
            disconnected := disconnected + 1;
            tunnels[i] := fe.(conn := ResetConn(c, {}, now, cfg.windowKb).(status := KeepFeBits(fe.conn.status)));
          }
        }
        i := i + 1;
      }
    }

    /** The loop of pkm_tick_cb over the tunnels, starting from interval
        `nt0`: it is TickFrom on the tunnel table. */
    method TickTunnels(now: int, nt0: int, inactive: int) returns (nt: int)
      modifies this, tunnels, beConns
      ensures var t := TickFrom(Tick(old(WorldOf()), nt0), 0, now, inactive, cfg.housekeepingIntervalMin, cfg.windowKb);
        WorldOf() == t.world && nt == t.nextTick
      ensures SettingsOf() == old(SettingsOf())
    {
      var hkMin := cfg.housekeepingIntervalMin;
      nt := nt0;
      ghost var target := TickFrom(Tick(WorldOf(), nt), 0, now, inactive, hkMin, cfg.windowKb);
      var i := 0;
      while i < tunnels.Length
        invariant 0 <= i <= tunnels.Length
        invariant TickFrom(Tick(WorldOf(), nt), i, now, inactive, hkMin, cfg.windowKb) == target
        invariant SettingsOf() == old(SettingsOf())
      {
        var fe := tunnels[i];
        if fe.conn.sockfd >= 0 {
          if fe.conn.activity < fe.lastPing - 4 * hkMin {
            tunnels[i] := fe.(conn := fe.conn.(status := fe.conn.status + Broken));
            var _ := UpdateTunnelIo(i, now);
          } else if fe.conn.activity < inactive {
            tunnels[i] := fe.(lastPing := now);
            sent := sent + [PingSent(i)];
            nt := 1 + hkMin;
          }
        }
        i := i + 1;
      }
    }

    /** pkm_tick_cb at time `now`: reschedules the timer, shuts down dead
        tunnels, pings idle ones and queues the next check. */
    method TickCb(now: int)
      requires Valid()
      modifies this, tunnels, beConns, jobs, jobs.pile
      ensures Valid()
      ensures var hkMin := cfg.housekeepingIntervalMin;
        var start := Backoff(old(nextTick), TimerRuns(old(enableTimer), old(status)), hkMin,
                             cfg.housekeepingIntervalMax + old(intervalFudgeFactor));
        var t := TickFrom(Tick(old(WorldOf()), start), 0, now, now - old(nextTick) - DivThree(old(nextTick)), hkMin, cfg.windowKb);
        var kind := TickJob(old(lastWorldUpdate), cfg.checkWorldInterval, now);
        WorldOf() == t.world.(nextTick := if kind == CheckWorld then 1 + hkMin else t.nextTick) &&
        (FirstSlot(old(jobs.pile[..]), true).Some? ==>
           Jobs(jobs.pile[..]) == Jobs(old(jobs.pile[..])) + multiset{Job(kind, Some(0))}) &&
        (FirstSlot(old(jobs.pile[..]), true).None? ==> jobs.pile[..] == old(jobs.pile[..]))
      ensures SettingsOf() == old(SettingsOf())
    {
      var hkMin := cfg.housekeepingIntervalMin;
      var nt := nextTick;
      var increment := DivThree(nt);
      var inactive := now - nextTick - increment;
      if enableTimer || (status != NoNetwork && status != Rejected && status != Flying) {
        nt := nt + increment;
        var maxTick := cfg.housekeepingIntervalMax + intervalFudgeFactor;
        if nt > maxTick {
          nt := maxTick;
        }
      } else {
        nt := 1 + hkMin;
      }
      nt := TickTunnels(now, nt, inactive);
      var kind := TickJob(lastWorldUpdate, cfg.checkWorldInterval, now);
      if lastWorldUpdate + cfg.checkWorldInterval < now {
        var _ := jobs.AddJob(CheckWorld, Some(0));
        nt := 1 + hkMin;
      } else {
        var _ := jobs.AddJob(CheckFrontends, Some(0));
      }
      nextTick := nt;
    }
  }

  /** The number of unknown entries among the first `kiteMax` requests. */
  method CountUnknown(requests: seq<KiteRequest>, kiteMax: nat) returns (n: nat)
    ensures n > 0 <==> exists k :: 0 <= k < |requests| && k < kiteMax && requests[k] == KiteUnknown
  {
    n := 0;
    var j := 0;
    while j < kiteMax && j < |requests|
      invariant 0 <= j <= |requests| && j <= kiteMax
      invariant n > 0 <==> exists k :: 0 <= k < j && requests[k] == KiteUnknown
    {
      if requests[j] == KiteUnknown {
        n := n + 1;
      }
      j := j + 1;
    }
  }

  lemma FirstFreeTunnelGrows(ts: seq<Tunnel>, i: nat)
    requires i < |ts|
    ensures FirstFreeTunnel(ts[..i + 1]) ==
      if FirstFreeTunnel(ts[..i]).Some? then FirstFreeTunnel(ts[..i])
      else if ts[i].ai.None? then Some(i) else None
  {
    var r := FirstFreeTunnel(ts[..i + 1]);
    var p := FirstFreeTunnel(ts[..i]);
    assert forall k :: 0 <= k < i ==> ts[..i + 1][k] == ts[..i][k];
    if p.Some? {
      assert ts[..i + 1][p.value].ai.None?;
    } else if ts[i].ai.None? {
      assert ts[..i + 1][i].ai.None?;
    }
  }
}
