/**
 * The records the tunnel manager keeps in its fixed tables: connections and
 * their status bits, backend streams, tunnels (front-ends) and kites, plus
 * the manager-wide status of libpagekite/pkstate.h.
 *
 * A status word is a set of flags.  The connection bits and the front-end
 * bits (FE_STATUS_*) share one word in the source, so they share one set
 * here; CONN_STATUS_UNKNOWN is the empty set.
 */
module State {
  import opened Wrappers
  import opened Utils

  datatype Flag =
    | EndRead | EndWrite | ClsRead | ClsWrite | BrokenBit | Allocated
    | WantRead | WantWrite | TnlBlocked | DstBlocked
    | FeWanted | FeNailedUp | FeInDns | FeRejected | FeLame | FeIsFast

  type Status = set<Flag>

  /** FE_STATUS_BITS: the front-end bits that survive a reconnect. */
  const FeStatusBits: set<Flag> := {FeWanted, FeNailedUp, FeInDns, FeRejected, FeLame, FeIsFast}

  /** CONN_STATUS_BROKEN: its own bit together with both close bits. */
  const Broken: set<Flag> := {BrokenBit, ClsRead, ClsWrite}

  /** The transient front-end bits cleared before every tunnel check. */
  const TransientBits: set<Flag> := {FeRejected, FeLame, FeIsFast, FeInDns}

  /** struct pk_conn, reduced to the fields the manager's bookkeeping uses. */
  datatype Conn = Conn(
    status: Status,
    sockfd: int,
    activity: int,
    readKb: int,
    sentKb: int,
    sendWindowKb: int,
    outBufferPos: int)

  /** A closed, idle connection record: the state of a zeroed table entry. */
  function ClosedConn(window: int): Conn
  {
    Conn({}, -1, 0, 0, 0, window, 0)
  }

  /**
   * pkc_reset_conn(conn, status) as the manager relies on it: the status
   * word, the activity time and the buffers and counters start over, and
   * the socket is left alone.
   */
  function ResetConn(c: Conn, status: Status, now: int, window: int): (r: Conn)
    ensures r.status == status && r.sockfd == c.sockfd && r.activity == now
    ensures r.outBufferPos == 0 && r.readKb == 0 && r.sentKb == 0
  {
    Conn(status, c.sockfd, now, 0, 0, window, 0)
  }

  /** The status word after a reconnect or disconnect: ALLOCATED plus the
      front-end bits the connection had. */
  function KeepFeBits(status: Status): Status
  {
    {Allocated} + status * FeStatusBits
  }

  /** The per-kite state of a tunnel's kite requests: PK_KITE_UNKNOWN, or
      any of the answers the front-end gave. */
  datatype KiteRequest = KiteUnknown | KiteAnswered(code: int)

  /** struct addrinfo, reduced to the address and its length. */
  datatype AddrInfo = AddrInfo(addrlen: nat, addr: Option<SockAddr>)

  /** struct pk_tunnel: one front-end. */
  datatype Tunnel = Tunnel(
    conn: Conn,
    ai: Option<AddrInfo>,
    hostname: Option<string>,
    port: int,
    lastDdnsup: int,
    errorCount: int,
    requestCount: int,
    requests: seq<KiteRequest>,
    priority: int,
    lastPing: int)

  /** A zeroed tunnel slot with its socket closed, as pkm_manager_init leaves it. */
  function EmptyTunnel(window: int): Tunnel
  {
    Tunnel(ClosedConn(window), None, None, 0, 0, 0, 0, [], 0, 0)
  }

  /** The front-end has an address and a host name: it is configured. */
  predicate Configured(t: Tunnel)
  {
    t.ai.Some? && t.hostname.Some?
  }

  /** struct pk_backend_conn: one stream; `tunnel` is the index of the
      tunnel it belongs to (None for NULL). */
  datatype BeConn = BeConn(conn: Conn, tunnel: Option<nat>, sid: string)

  /** struct pk_pagekite.  An empty protocol marks a free slot. */
  datatype Kite = Kite(
    protocol: string,
    authSecret: string,
    publicDomain: string,
    publicPort: int,
    localDomain: string,
    localPort: int)

  const EmptyKite: Kite := Kite("", "", "", 0, "", 0)

  /** pk_status_t */
  datatype PkStatus = Startup | Connecting | DynDns | Flying | Problems | Rejected | NoNetwork

  /** PK_EOF_READ and PK_EOF_WRITE */
  datatype EofKind = EofRead | EofWrite

  /** What the manager writes onto tunnels and the event loop: an EOF chunk
      for a stream, a ping, or a wake-up of the tick callback. */
  datatype Emit =
    | EofSent(tunnel: Option<nat>, sid: string, eof: set<EofKind>)
    | PingSent(pinged: nat)
    | TickRequested

  /** The header constants the manager is built with. */
  datatype Config = Config(
    minKiteAlloc: nat,
    minFeAlloc: nat,
    minConnAlloc: nat,
    housekeepingIntervalMin: nat,
    housekeepingIntervalMax: int,
    checkWorldInterval: int,
    ddnsUpdateIntervalMin: int,
    windowKb: int)
}
