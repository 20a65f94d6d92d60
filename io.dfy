/**
 * The half-close state machine of libpagekite/pkmanager.c: EOF tokens
 * (pkm_parse_eof), the destination and tunnel flow-control bits
 * (pkm_flow_control_conn, pkm_flow_control_tunnel) and the status-bit
 * transitions of pkm_update_io.  The event-loop watchers, shutdown() and
 * close() have no effect on the modelled state; the EOF chunks and tick
 * wake-ups the source writes are recorded as `Emit` values.
 */
module Io {
  import opened Wrappers
  import opened State

  /* ------------------------------------------------------------------ */
  /* pkm_parse_eof                                                       */
  /* ------------------------------------------------------------------ */

  predicate IsReadLetter(c: char) { c == 'R' || c == 'r' }

  predicate IsWriteLetter(c: char) { c == 'W' || c == 'w' }

  /** The EOF token holds an 'R' (either case). */
  predicate NamesRead(tok: Option<string>)
  {
    tok.Some? && exists i :: 0 <= i < |tok.value| && IsReadLetter(tok.value[i])
  }

  /** The EOF token holds a 'W' (either case). */
  predicate NamesWrite(tok: Option<string>)
  {
    tok.Some? && exists i :: 0 <= i < |tok.value| && IsWriteLetter(tok.value[i])
  }

  /**
   * The bits pkm_parse_eof adds: a token naming neither direction (an empty
   * or missing one included) is a legacy EOF of both; otherwise a read EOF
   * means the remote will not write, so END_WRITE, and a write EOF means it
   * will not read, so END_READ.
   */
  function EofBits(tok: Option<string>): Status
  {
    var r := NamesRead(tok);
    var w := NamesWrite(tok);
    if !r && !w then {EndRead, EndWrite}
    else (if w then {EndRead} else {}) + (if r then {EndWrite} else {})
  }

  /** The crossed mapping of EOF letters to status bits. */
  lemma EofBitsCrossed(tok: Option<string>)
    ensures EndWrite in EofBits(tok) <==> NamesRead(tok) || !NamesWrite(tok)
    ensures EndRead in EofBits(tok) <==> NamesWrite(tok) || !NamesRead(tok)
    ensures EofBits(tok) != {} && EofBits(tok) <= {EndRead, EndWrite}
  {
  }

  /** The four kinds of token. */
  lemma EofBitsExamples()
    ensures EofBits(Some("R")) == {EndWrite}
    ensures EofBits(Some("w")) == {EndRead}
    ensures EofBits(Some("rW")) == {EndRead, EndWrite}
    ensures EofBits(Some("")) == {EndRead, EndWrite}
    ensures EofBits(None) == {EndRead, EndWrite}
  {
    assert IsReadLetter("R"[0]);
    assert !NamesWrite(Some("R"));
    assert IsWriteLetter("w"[0]);
    assert !NamesRead(Some("w"));
    assert IsReadLetter("rW"[0]) && IsWriteLetter("rW"[1]);
  }

  /* ------------------------------------------------------------------ */
  /* Flow control                                                        */
  /* ------------------------------------------------------------------ */

  /** flow_op */
  datatype FlowOp = DestBlocked | DestUnblocked | TunnelBlocked | TunnelUnblocked

  /** pkm_flow_control_conn: DST_BLOCKED follows a destination operation;
      nothing else in the connection changes. */
  function FlowControlConn(c: Conn, op: FlowOp): (r: Conn)
    ensures op == DestBlocked ==> DstBlocked in r.status
    ensures op == DestUnblocked ==> DstBlocked !in r.status
    ensures op != DestBlocked && op != DestUnblocked ==> r == c
    ensures r.status - {DstBlocked} == c.status - {DstBlocked}
    ensures r == c.(status := r.status)
  {
    if DstBlocked in c.status then
      if op == DestUnblocked then c.(status := c.status - {DstBlocked}) else c
    else if op == DestBlocked then c.(status := c.status + {DstBlocked}) else c
  }

  /** The destination operation update_io asks for: blocked exactly when more
      has been read than sent plus the send window. */
  function DestOp(c: Conn): FlowOp
  {
    if c.readKb > c.sentKb + c.sendWindowKb then DestBlocked else DestUnblocked
  }

  /** The per-stream step of pkm_flow_control_tunnel. */
  function FlowTunnelOne(b: BeConn, fe: Option<nat>, op: FlowOp): BeConn
  {
    if b.tunnel != fe then b
    else if TnlBlocked in b.conn.status then
      if op == TunnelUnblocked then b.(conn := b.conn.(status := b.conn.status - {TnlBlocked})) else b
    else if op == TunnelBlocked then b.(conn := b.conn.(status := b.conn.status + {TnlBlocked})) else b
  }

  /** pkm_flow_control_tunnel over the whole table. */
  function FlowTunnel(bes: seq<BeConn>, fe: Option<nat>, op: FlowOp): (r: seq<BeConn>)
    ensures |r| == |bes|
  {
    seq(|bes|, i requires 0 <= i < |bes| => FlowTunnelOne(bes[i], fe, op))
  }

  /** A tunnel operation sets or clears TNL_BLOCKED on exactly the streams of
      that tunnel, and changes nothing else. */
  lemma FlowTunnelSpec(bes: seq<BeConn>, fe: Option<nat>, op: FlowOp, i: nat)
    requires i < |bes|
    ensures var r := FlowTunnel(bes, fe, op)[i];
      r == bes[i].(conn := bes[i].conn.(status := r.conn.status)) &&
      r.conn.status - {TnlBlocked} == bes[i].conn.status - {TnlBlocked} &&
      (bes[i].tunnel == fe && op == TunnelBlocked ==> TnlBlocked in r.conn.status) &&
      (bes[i].tunnel == fe && op == TunnelUnblocked ==> TnlBlocked !in r.conn.status) &&
      (bes[i].tunnel != fe || (op != TunnelBlocked && op != TunnelUnblocked) ==> r == bes[i])
  {
  }

  /* ------------------------------------------------------------------ */
  /* The status-bit step of pkm_update_io                                */
  /* ------------------------------------------------------------------ */

  /** The effect of one pass of update_io on one connection: its new record,
      the EOF to announce, the number of directions still open, and the
      tunnel flow-control operation requested. */
  datatype IoStep = IoStep(conn: Conn, eof: set<EofKind>, flows: int, op: Option<FlowOp>)

  /** The read half, then the write half, of update_io on connection `c`
      (a tunnel's own connection when `isTunnel`). */
  function IoStepOf(c: Conn, isTunnel: bool): IoStep
  {
    var readClosing := ClsRead in c.status || EndRead in c.status;
    var eofR: set<EofKind> := if readClosing && EndRead !in c.status then {EofRead} else {};
    var s1 := if readClosing then c.status + {EndRead, ClsRead} + (if isTunnel then {ClsWrite} else {}) else c.status;
    var f1 := if readClosing then 1 else 2;
    if ClsWrite in s1 then
      var eofW: set<EofKind> := if EndWrite !in s1 then {EofWrite} else {};
      IoStep(c.(status := s1 + {EndWrite}, outBufferPos := 0), eofR + eofW, f1 - 1, None)
    else if c.outBufferPos > 0 || WantWrite in s1 then
      IoStep(c.(status := s1), eofR, f1, Some(TunnelBlocked))
    else if EndWrite in s1 then
      IoStep(c.(status := s1 + {ClsWrite}), eofR, f1 - 1, None)
    else
      IoStep(c.(status := s1), eofR, f1, Some(TunnelUnblocked))
  }

  /** Closing for reading: once CLS_READ or END_READ is set both are, an EOF
      is announced only if END_READ was not already set, and a tunnel that
      cannot be read is closed for writing too. */
  lemma IoStepReadHalf(c: Conn, isTunnel: bool)
    ensures var r := IoStepOf(c, isTunnel);
      if ClsRead in c.status || EndRead in c.status then
        {EndRead, ClsRead} <= r.conn.status &&
        (EofRead in r.eof <==> EndRead !in c.status) &&
        (isTunnel ==> {ClsWrite, EndWrite} <= r.conn.status && r.conn.outBufferPos == 0)
      else
        EofRead !in r.eof && EndRead !in r.conn.status && ClsRead !in r.conn.status
  {
  }

  /** Closing for writing: CLS_WRITE forces END_WRITE and discards the
      output buffer, announcing an EOF only if END_WRITE was not set. */
  lemma IoStepWriteHalf(c: Conn, isTunnel: bool)
    requires ClsWrite in c.status
    ensures var r := IoStepOf(c, isTunnel);
      EndWrite in r.conn.status && r.conn.outBufferPos == 0 &&
      (EofWrite in r.eof <==> EndWrite !in c.status) && r.op.None?
  {
  }

  /** update_io only adds close bits; the buffer position is the only other
      field that can change, and only to zero. */
  lemma IoStepMonotone(c: Conn, isTunnel: bool)
    ensures var r := IoStepOf(c, isTunnel);
      c.status <= r.conn.status &&
      r.conn.status - c.status <= {EndRead, ClsRead, EndWrite, ClsWrite} &&
      r.conn == c.(status := r.conn.status, outBufferPos := r.conn.outBufferPos) &&
      (r.conn.outBufferPos == c.outBufferPos || r.conn.outBufferPos == 0)
  {
  }

  /** The flow count is the number of directions not yet closed: it is 0
      exactly when both CLS_READ and CLS_WRITE end up set. */
  lemma IoStepFlows(c: Conn, isTunnel: bool)
    ensures var r := IoStepOf(c, isTunnel);
      r.flows == (if ClsRead in r.conn.status then 0 else 1) + (if ClsWrite in r.conn.status then 0 else 1) &&
      (r.flows == 0 <==> ClsRead in r.conn.status && ClsWrite in r.conn.status)
  {
  }

  /** The tunnel is told to block exactly while the connection's writes are
      pending, and a flow-control request only comes while it can write. */
  lemma IoStepOp(c: Conn, isTunnel: bool)
    ensures var r := IoStepOf(c, isTunnel);
      (r.op == Some(TunnelBlocked) <==>
         ClsWrite !in r.conn.status && (c.outBufferPos > 0 || WantWrite in r.conn.status)) &&
      (r.op.Some? ==> r.flows >= 1 && ClsWrite !in r.conn.status)
  {
  }

  /** An EOF is announced at most once: a second pass over the result
      announces nothing. */
  lemma IoStepEofOnce(c: Conn, isTunnel: bool)
    ensures IoStepOf(IoStepOf(c, isTunnel).conn, isTunnel).eof == {}
  {
  }

  /* ------------------------------------------------------------------ */
  /* pkm_update_io on a backend stream                                   */
  /* ------------------------------------------------------------------ */

  /** The part of the manager's state update_io touches for a stream: the
      backend table, the live-stream counter and what has been written. */
  datatype Streams = Streams(bes: seq<BeConn>, liveStreams: int, sent: seq<Emit>)

  /**
   * pkm_update_io(fe, pkb) for backend slot `b`: nothing without a socket;
   * otherwise DST_BLOCKED is brought up to date, the close step runs, the
   * tunnel's streams are (un)blocked as requested, an EOF is written onto
   * tunnel `fe`, and with both directions closed the slot is freed and the
   * live-stream count goes down.
   */
  function BeIo(s: Streams, fe: Option<nat>, b: nat): (r: Streams)
    requires b < |s.bes|
    ensures |r.bes| == |s.bes|
  {
    var pkb := s.bes[b];
    if pkb.conn.sockfd <= 0 then s
    else
      var st := IoStepOf(FlowControlConn(pkb.conn, DestOp(pkb.conn)), false);
      var bes1 := s.bes[b := pkb.(conn := st.conn)];
      var bes2 := if st.op.Some? then FlowTunnel(bes1, fe, st.op.value) else bes1;
      var sent1 := if st.eof != {} then s.sent + [EofSent(fe, pkb.sid, st.eof)] else s.sent;
      if st.flows == 0 then
        Streams(bes2[b := bes2[b].(conn := bes2[b].conn.(status := {}, sockfd := -1))], s.liveStreams - 1, sent1)
      else
        Streams(bes2, s.liveStreams, sent1)
  }

  /** What update_io does to the stream itself: DST_BLOCKED tracks the send
      window, and a stream with both directions closed is freed (UNKNOWN)
      and counted out of the live streams. */
  lemma BeIoSpec(s: Streams, fe: Option<nat>, b: nat)
    requires b < |s.bes| && s.bes[b].conn.sockfd > 0
    ensures var r := BeIo(s, fe, b);
      var c := s.bes[b].conn;
      var st := IoStepOf(FlowControlConn(c, DestOp(c)), false);
      if st.flows == 0 then
        r.bes[b].conn.status == {} && r.bes[b].conn.sockfd == -1 && r.liveStreams == s.liveStreams - 1
      else
        r.liveStreams == s.liveStreams && r.bes[b].conn.sockfd == c.sockfd &&
        (DstBlocked in r.bes[b].conn.status <==> c.readKb > c.sentKb + c.sendWindowKb) &&
        c.status - {DstBlocked, TnlBlocked} <= r.bes[b].conn.status
  {
    var c := s.bes[b].conn;
    var c0 := FlowControlConn(c, DestOp(c));
    IoStepMonotone(c0, false);
    var st := IoStepOf(c0, false);
    if st.op.Some? {
      var bes1 := s.bes[b := s.bes[b].(conn := st.conn)];
      FlowTunnelSpec(bes1, fe, st.op.value, b);
    }
  }

  /** Streams of other tunnels are never touched, and streams of tunnel `fe`
      other than `b` can only have TNL_BLOCKED toggled. */
  lemma BeIoFrame(s: Streams, fe: Option<nat>, b: nat, j: nat)
    requires b < |s.bes| && j < |s.bes| && j != b
    ensures var r := BeIo(s, fe, b);
      r.bes[j] == s.bes[j].(conn := s.bes[j].conn.(status := r.bes[j].conn.status)) &&
      r.bes[j].conn.status - {TnlBlocked} == s.bes[j].conn.status - {TnlBlocked} &&
      (s.bes[j].tunnel != fe ==> r.bes[j] == s.bes[j])
  {
    var pkb := s.bes[b];
    if pkb.conn.sockfd > 0 {
      var st := IoStepOf(FlowControlConn(pkb.conn, DestOp(pkb.conn)), false);
      var bes1 := s.bes[b := pkb.(conn := st.conn)];
      if st.op.Some? {
        FlowTunnelSpec(bes1, fe, st.op.value, j);
      }
    }
  }

  /* ------------------------------------------------------------------ */
  /* pkm_update_io on a tunnel                                           */
  /* ------------------------------------------------------------------ */

  /** Both EOF bits are set on a live stream of tunnel `fe` before update_io
      runs on it. */
  function MarkEof(s: Streams, j: nat): (r: Streams)
    requires j < |s.bes|
    ensures |r.bes| == |s.bes|
  {
    s.(bes := s.bes[j := s.bes[j].(conn := s.bes[j].conn.(status := s.bes[j].conn.status + {EndWrite, EndRead}))])
  }

  /** The loop of update_io that shuts down every stream of a closing tunnel,
      from slot `i` on. */
  function EofSweep(s: Streams, fe: nat, i: nat): (r: Streams)
    requires i <= |s.bes|
    ensures |r.bes| == |s.bes|
    decreases |s.bes| - i
  {
    if i == |s.bes| then s
    else if s.bes[i].tunnel == Some(fe) && s.bes[i].conn.status != {} then
      EofSweep(BeIo(MarkEof(s, i), Some(fe), i), fe, i + 1)
    else EofSweep(s, fe, i + 1)
  }

  /** A stream of tunnel `fe` is shut down: it carries both EOF bits, or it
      was freed (a freed slot can still pick up TNL_BLOCKED). */
  predicate ShutDown(b: BeConn)
  {
    {EndRead, EndWrite} <= b.conn.status || b.conn.status <= {TnlBlocked}
  }

  /** Every stream of a closing tunnel is shut down by the sweep, and the
      streams of other tunnels are left as they were. */
  lemma {:induction false} EofSweepShutsDown(s: Streams, fe: nat, i: nat)
    requires i <= |s.bes|
    requires forall k :: 0 <= k < i && s.bes[k].tunnel == Some(fe) ==> ShutDown(s.bes[k])
    ensures var r := EofSweep(s, fe, i);
      forall k :: 0 <= k < |s.bes| ==>
        (s.bes[k].tunnel == Some(fe) ==> ShutDown(r.bes[k])) &&
        (s.bes[k].tunnel != Some(fe) ==> r.bes[k] == s.bes[k]) &&
        r.bes[k].tunnel == s.bes[k].tunnel
    decreases |s.bes| - i
  {
    if i < |s.bes| {
      if s.bes[i].tunnel == Some(fe) && s.bes[i].conn.status != {} {
        var m := MarkEof(s, i);
        var s' := BeIo(m, Some(fe), i);
        forall k | 0 <= k < |s.bes|
          ensures s'.bes[k].tunnel == s.bes[k].tunnel
          ensures s.bes[k].tunnel != Some(fe) ==> s'.bes[k] == s.bes[k]
          ensures k <= i && s.bes[k].tunnel == Some(fe) ==> ShutDown(s'.bes[k])
        {
          if k == i {
            BeIoOwnSlot(m, Some(fe), i);
          } else {
            BeIoFrame(m, Some(fe), i, k);
          }
        }
        EofSweepShutsDown(s', fe, i + 1);
      } else {
        EofSweepShutsDown(s, fe, i + 1);
      }
    }
  }

  /** update_io on a stream never takes away its EOF bits except by freeing
      it, and never changes which tunnel it belongs to. */
  lemma BeIoOwnSlot(s: Streams, fe: Option<nat>, b: nat)
    requires b < |s.bes|
    ensures var r := BeIo(s, fe, b);
      r.bes[b].tunnel == s.bes[b].tunnel &&
      ({EndRead, EndWrite} <= s.bes[b].conn.status ==> ShutDown(r.bes[b]))
  {
    var pkb := s.bes[b];
    if pkb.conn.sockfd > 0 {
      var c0 := FlowControlConn(pkb.conn, DestOp(pkb.conn));
      IoStepMonotone(c0, false);
      var st := IoStepOf(c0, false);
      var bes1 := s.bes[b := pkb.(conn := st.conn)];
      if st.op.Some? {
        FlowTunnelSpec(bes1, fe, st.op.value, b);
      }
    }
  }

  /** The part of the manager's state update_io touches for a tunnel. */
  datatype World = World(tunnels: seq<Tunnel>, streams: Streams, liveTunnels: int, status: PkStatus, nextTick: int)

  /**
   * pkm_update_io(fe, NULL): nothing without a socket; otherwise the close
   * step runs on the tunnel's connection, its streams are (un)blocked as
   * requested, an EOF shuts down every stream of the tunnel, and with both
   * directions closed the tunnel is counted out, the manager goes to
   * PROBLEMS, the connection is reset to ALLOCATED with its socket closed,
   * and the tick is rescheduled early when no tunnel is left.
   */
  function TunnelIo(w: World, fe: nat, now: int, hkMin: int, window: int): (r: World)
    requires fe < |w.tunnels|
    ensures |r.tunnels| == |w.tunnels| && |r.streams.bes| == |w.streams.bes|
  {
    var t := w.tunnels[fe];
    if t.conn.sockfd <= 0 then w
    else
      var st := IoStepOf(t.conn, true);
      var bes1 := if st.op.Some? then FlowTunnel(w.streams.bes, Some(fe), st.op.value) else w.streams.bes;
      var streams1 := w.streams.(bes := bes1);
      var streams2 := if st.eof != {} then EofSweep(streams1, fe, 0) else streams1;
      if st.flows == 0 then
        var lt := w.liveTunnels - 1;
        var t' := t.(conn := ResetConn(st.conn, {Allocated}, now, window).(sockfd := -1), requestCount := 0);
        World(w.tunnels[fe := t'], streams2.(sent := streams2.sent + [TickRequested]), lt, Problems,
              if lt < 1 then 1 + hkMin else w.nextTick)
      else
        w.(tunnels := w.tunnels[fe := t.(conn := st.conn)], streams := streams2)
  }

  /** A tunnel that stops reading is closed for good: its streams are shut
      down, it leaves the live count, and its slot is reset to ALLOCATED
      with no socket and no kite requests. */
  lemma TunnelIoCloses(w: World, fe: nat, now: int, hkMin: int, window: int)
    requires fe < |w.tunnels| && w.tunnels[fe].conn.sockfd > 0
    requires ClsRead in w.tunnels[fe].conn.status || EndRead in w.tunnels[fe].conn.status
    requires !({EndRead, EndWrite} <= w.tunnels[fe].conn.status)
    ensures var r := TunnelIo(w, fe, now, hkMin, window);
      r.tunnels[fe].conn.status == {Allocated} && r.tunnels[fe].conn.sockfd == -1 &&
      r.tunnels[fe].requestCount == 0 &&
      r.liveTunnels == w.liveTunnels - 1 && r.status == Problems &&
      (r.liveTunnels < 1 ==> r.nextTick == 1 + hkMin) &&
      forall k :: 0 <= k < |w.streams.bes| && w.streams.bes[k].tunnel == Some(fe) ==> ShutDown(r.streams.bes[k])
  {
    var t := w.tunnels[fe];
    var st := IoStepOf(t.conn, true);
    IoStepReadHalf(t.conn, true);
    IoStepFlows(t.conn, true);
    assert st.eof != {};
    assert st.op.None?;
    EofSweepShutsDown(w.streams, fe, 0);
  }

  /** A tunnel whose both END bits are already set announces nothing: it is
      still reset and leaves the live count, but no stream is touched and
      only a timer tick is requested. */
  lemma TunnelIoClosesQuietly(w: World, fe: nat, now: int, hkMin: int, window: int)
    requires fe < |w.tunnels| && w.tunnels[fe].conn.sockfd > 0
    requires {EndRead, EndWrite} <= w.tunnels[fe].conn.status
    ensures var r := TunnelIo(w, fe, now, hkMin, window);
      r.tunnels[fe].conn.status == {Allocated} && r.tunnels[fe].conn.sockfd == -1 &&
      r.tunnels[fe].requestCount == 0 &&
      r.liveTunnels == w.liveTunnels - 1 && r.status == Problems &&
      (r.liveTunnels < 1 ==> r.nextTick == 1 + hkMin) &&
      r.streams.bes == w.streams.bes && r.streams.liveStreams == w.streams.liveStreams &&
      r.streams.sent == w.streams.sent + [TickRequested]
  {
    var t := w.tunnels[fe];
    IoStepReadHalf(t.conn, true);
    IoStepFlows(t.conn, true);
  }
}
