/**
 * The blocking thread of libpagekite/pkblocker.c, working on the manager's
 * tunnel table in place.  Each pass is proved against the function of
 * Selector that says what it does; the checks compose the passes with the
 * manager's reconnect and disconnect passes.  What the outside world says
 * (DNS answers, connect results, address texts, update-server replies) is
 * an Environment value.
 */
module Blocker {
  import opened Wrappers
  import opened Utils
  import opened State
  import opened Selector
  import opened Housekeeping
  import opened JobPile
  import opened Manager

  /** The answers the outside world gives one pass of the blocking thread. */
  datatype Environment = Environment(
    /** addresses DNS gives for the kites during the world check */
    worldAnswers: seq<SockAddr>,
    /** addresses DNS gives for the kites during the tunnel check */
    answers: seq<SockAddr>,
    /** the result of connecting to each front-end */
    outcomes: seq<ConnectOutcome>,
    /** the text form of each front-end's address, if it has one */
    texts: seq<Option<string>>,
    /** the update server's reply for each kite ("" for none) */
    replies: seq<string>)

  /** The environment has one answer per front-end and per kite. */
  predicate Fits(env: Environment, m: PkManager)
  {
    |env.outcomes| == m.tunnels.Length && |env.texts| == m.tunnels.Length && |env.replies| == m.kites.Length
  }

  /* ------------------------------------------------------------------ */
  /* pkb_clear_transient_flags                                           */
  /* ------------------------------------------------------------------ */

  method ClearTransientFlags(m: PkManager)
    modifies m.tunnels
    ensures m.tunnels[..] == ClearTransient(old(m.tunnels[..]))
  {
    var i := 0;
    while i < m.tunnels.Length
      invariant 0 <= i <= m.tunnels.Length
      invariant forall k :: 0 <= k < i ==> m.tunnels[k] == ClearTransient(old(m.tunnels[..]))[k]
      invariant forall k :: i <= k < m.tunnels.Length ==> m.tunnels[k] == old(m.tunnels[k])
    {
      var fe := m.tunnels[i];
      var s := fe.conn.status;
      s := s - {FeRejected};
      s := s - {FeLame};
      s := s - {FeIsFast};
      s := s - {FeInDns};
      m.tunnels[i] := WithStatus(fe, s);
      i := i + 1;
    }
  }

  /* ------------------------------------------------------------------ */
  /* pkb_choose_tunnels                                                  */
  /* ------------------------------------------------------------------ */

  method ChooseTunnels(m: PkManager)
    modifies m.tunnels
    ensures m.tunnels[..] == Selector.ChooseTunnels(old(m.tunnels[..]), m.wantSpareFrontends)
  {
    ClearWantedPass(m);
    FastRounds(m);
    ghost var chosen := WantedRule(m.tunnels[..]);
    var wanted := WantedPass(m);
    AimingZero(chosen);
    if wanted > 0 {
      return;
    }
    var found := FirstUsablePass(m);
    if found {
      return;
    }
    KeepLivePass(m);
  }

  /** The first loop: WANTED and IS_FAST cleared on every front-end. */
  method ClearWantedPass(m: PkManager)
    modifies m.tunnels
    ensures m.tunnels[..] == ClearWanted(old(m.tunnels[..]))
  {
    var i := 0;
    while i < m.tunnels.Length
      invariant 0 <= i <= m.tunnels.Length
      invariant forall k :: 0 <= k < i ==> m.tunnels[k] == ClearWanted(old(m.tunnels[..]))[k]
      invariant forall k :: i <= k < m.tunnels.Length ==> m.tunnels[k] == old(m.tunnels[k])
    {
      var fe := m.tunnels[i];
      if fe.ai.Some? && fe.hostname.Some? {
        m.tunnels[i] := WithStatus(fe, fe.conn.status - {FeWanted, FeIsFast});
      }
      i := i + 1;
    }
  }

  /** The want_spare_frontends + 1 rounds that each mark the best remaining
      candidate IS_FAST. */
  method FastRounds(m: PkManager)
    modifies m.tunnels
    ensures m.tunnels[..] == MarkFast(old(m.tunnels[..]), m.wantSpareFrontends + 1)
  {
    var rounds := m.wantSpareFrontends + 1;
    var wantn := 0;
    while wantn < rounds
      invariant 0 <= wantn && (rounds > 0 ==> wantn <= rounds)
      invariant MarkFast(m.tunnels[..], rounds - wantn) == MarkFast(old(m.tunnels[..]), rounds)
    {
      var highpri: Option<nat> := None;
      var best := 1024000;
      var i := 0;
      while i < m.tunnels.Length
        invariant 0 <= i <= m.tunnels.Length
        invariant highpri.Some? ==> highpri.value < i && best == Rank(m.tunnels[highpri.value])
        invariant BestFrom(m.tunnels[..], i, highpri) == Best(m.tunnels[..])
      {
        var fe := m.tunnels[i];
        if fe.hostname.Some? {
          var prio := fe.priority + 25 * fe.errorCount;
          if fe.ai.Some? && fe.priority != 0 && (highpri.None? || best > prio) &&
             !(FeIsFast in fe.conn.status || FeRejected in fe.conn.status || FeLame in fe.conn.status) {
            highpri := Some(i);
            best := prio;
          }
        }
        i := i + 1;
      }
      if highpri.Some? {
        var j := highpri.value;
        m.tunnels[j] := WithStatus(m.tunnels[j], m.tunnels[j].conn.status + {FeIsFast});
      }
      wantn := wantn + 1;
    }
  }

  /** The WANTED rule on every named front-end; returns how many named
      front-ends end up WANTED or IN_DNS. */
  method WantedPass(m: PkManager) returns (wanted: int)
    modifies m.tunnels
    ensures m.tunnels[..] == WantedRule(old(m.tunnels[..]))
    ensures wanted > 0 <==> exists k :: 0 <= k < m.tunnels.Length && m.tunnels[k].hostname.Some? &&
                                        (FeWanted in m.tunnels[k].conn.status || FeInDns in m.tunnels[k].conn.status)
  {
    wanted := 0;
    var i := 0;
    while i < m.tunnels.Length
      invariant 0 <= i <= m.tunnels.Length && wanted >= 0
      invariant forall k :: 0 <= k < i ==> m.tunnels[k] == Wanting(old(m.tunnels[k]))
      invariant forall k :: i <= k < m.tunnels.Length ==> m.tunnels[k] == old(m.tunnels[k])
      invariant wanted > 0 <==> exists k :: 0 <= k < i && m.tunnels[k].hostname.Some? &&
                                          (FeWanted in m.tunnels[k].conn.status || FeInDns in m.tunnels[k].conn.status)
    {
      var fe := m.tunnels[i];
      if fe.hostname.Some? {
        var s := fe.conn.status;
        if FeNailedUp in s || FeIsFast in s {
          s := s + {FeWanted};
        } else {
          s := s - {FeWanted};
        }
        if FeRejected in s || FeLame in s {
          s := s - {FeWanted};
        }
        m.tunnels[i] := WithStatus(fe, s);
        if FeWanted in s || FeInDns in s {
          wanted := wanted + 1;
        }
      }
      i := i + 1;
    }
  }

  /** The first fallback: the first usable front-end becomes WANTED;
      returns whether there was one. */
  method FirstUsablePass(m: PkManager) returns (found: bool)
    modifies m.tunnels
    ensures match FirstUsableFrom(old(m.tunnels[..]), 0)
      case Some(j) => found && m.tunnels[..] == old(m.tunnels[..])[j := AddWanted(old(m.tunnels[j]))]
      case None => !found && m.tunnels[..] == old(m.tunnels[..])
  {
    var i := 0;
    while i < m.tunnels.Length
      invariant 0 <= i <= m.tunnels.Length
      invariant m.tunnels[..] == old(m.tunnels[..])
      invariant forall k :: 0 <= k < i ==> !Usable(m.tunnels[k])
    {
      var fe := m.tunnels[i];
      if fe.ai.Some? && fe.hostname.Some? && !(FeRejected in fe.conn.status || FeLame in fe.conn.status) {
        m.tunnels[i] := AddWanted(fe);
        return true;
      }
      i := i + 1;
    }
    return false;
  }

  /** The second fallback: every front-end with a live socket becomes
      WANTED. */
  method KeepLivePass(m: PkManager)
    modifies m.tunnels
    ensures m.tunnels[..] == KeepLive(old(m.tunnels[..]))
  {
    var i := 0;
    while i < m.tunnels.Length
      invariant 0 <= i <= m.tunnels.Length
      invariant forall k :: 0 <= k < i ==> m.tunnels[k] == KeepLive(old(m.tunnels[..]))[k]
      invariant forall k :: i <= k < m.tunnels.Length ==> m.tunnels[k] == old(m.tunnels[k])
    {
      var fe := m.tunnels[i];
      if fe.ai.Some? && fe.hostname.Some? && fe.conn.sockfd > 0 {
        m.tunnels[i] := AddWanted(fe);
      }
      i := i + 1;
    }
  }

  /* ------------------------------------------------------------------ */
  /* pkb_check_kites_dns                                                 */
  /* ------------------------------------------------------------------ */

  method CheckKitesDns(m: PkManager, addrs: seq<SockAddr>, now: int)
    modifies m.tunnels
    ensures m.tunnels[..] == Selector.CheckKitesDns(old(m.tunnels[..]), addrs, now, m.cfg.ddnsUpdateIntervalMin)
  {
    var inDns := MatchPass(m, addrs, now);
    ghost var matched := m.tunnels[..];
    var dnsFe;
    dnsFe, inDns := RenewPass(m, now - m.cfg.ddnsUpdateIntervalMin, inDns);
    assert m.tunnels[..] == RenewAll(matched, now - m.cfg.ddnsUpdateIntervalMin);
    if inDns < 1 && dnsFe.Some? {
      var j := dnsFe.value;
      m.tunnels[j] := AddInDns(m.tunnels[j]);
    }
  }

  /** The clearing loop and the loop over the DNS answers: every front-end
      whose address was given is marked seen now.  Returns the number of
      matches, positive exactly when some slot is IN_DNS. */
  method MatchPass(m: PkManager, addrs: seq<SockAddr>, now: int) returns (inDns: int)
    modifies m.tunnels
    ensures m.tunnels[..] == Matches(old(m.tunnels[..]), addrs, now)
    ensures inDns >= 0 && (inDns > 0 <==> AnyInDns(m.tunnels[..]))
  {
    var i := 0;
    while i < m.tunnels.Length
      invariant 0 <= i <= m.tunnels.Length
      invariant forall k :: 0 <= k < i ==> m.tunnels[k] == ClearInDns(old(m.tunnels[..]))[k]
      invariant forall k :: i <= k < m.tunnels.Length ==> m.tunnels[k] == old(m.tunnels[k])
    {
      m.tunnels[i] := WithStatus(m.tunnels[i], m.tunnels[i].conn.status - {FeInDns});
      i := i + 1;
    }
    ghost var cleared := m.tunnels[..];
    inDns := 0;
    var n := 0;
    while n < |addrs|
      invariant 0 <= n <= |addrs| && inDns >= 0
      invariant forall k :: 0 <= k < m.tunnels.Length ==> m.tunnels[k] == Matched(cleared[k], addrs, n, now)
      invariant inDns > 0 <==> AnyInDns(m.tunnels[..])
    {
      var j := 0;
      while j < m.tunnels.Length
        invariant 0 <= j <= m.tunnels.Length && inDns >= 0
        invariant forall k :: 0 <= k < j ==> m.tunnels[k] == Matched(cleared[k], addrs, n + 1, now)
        invariant forall k :: j <= k < m.tunnels.Length ==> m.tunnels[k] == Matched(cleared[k], addrs, n, now)
        invariant inDns > 0 <==> AnyInDns(m.tunnels[..])
      {
        var fe := m.tunnels[j];
        ResolvedByStep(cleared[j], addrs, n);
        if fe.ai.Some? && fe.hostname.Some? {
          if AddrCmp(fe.ai.value.addr, Some(addrs[n])) == 0 {
            m.tunnels[j] := SeenInDns(fe, now);
            inDns := inDns + 1;
          }
        }
        j := j + 1;
      }
      n := n + 1;
    }
  }

  /** The renewal loop: front-ends seen after `window` are IN_DNS again.
      Returns the front-end seen most recently and the IN_DNS count carried
      on from `inDns`, positive exactly when some slot is IN_DNS. */
  method RenewPass(m: PkManager, window: int, inDns: int) returns (dnsFe: Option<nat>, inDns': int)
    requires inDns >= 0 && (inDns > 0 <==> AnyInDns(m.tunnels[..]))
    modifies m.tunnels
    ensures m.tunnels[..] == RenewAll(old(m.tunnels[..]), window)
    ensures dnsFe == MostRecent(old(m.tunnels[..]))
    ensures inDns' > 0 <==> AnyInDns(m.tunnels[..])
  {
    var recently := 0;
    dnsFe := None;
    inDns' := inDns;
    var j := 0;
    while j < m.tunnels.Length
      invariant 0 <= j <= m.tunnels.Length
      invariant dnsFe.Some? ==> dnsFe.value < j
      invariant forall k :: 0 <= k < j ==> m.tunnels[k] == Renew(old(m.tunnels[k]), window)
      invariant forall k :: j <= k < m.tunnels.Length ==> m.tunnels[k] == old(m.tunnels[k])
      invariant MostRecentFrom(old(m.tunnels[..]), j, recently, dnsFe) == MostRecent(old(m.tunnels[..]))
      invariant inDns' > 0 <==> AnyInDns(old(m.tunnels[..])) || exists k :: 0 <= k < j && FeInDns in m.tunnels[k].conn.status
      invariant inDns' >= 0
    {
      var fe := m.tunnels[j];
      if fe.ai.Some? && fe.hostname.Some? {
        if fe.lastDdnsup > window {
          m.tunnels[j] := WithStatus(fe, fe.conn.status + {FeInDns});
          inDns' := inDns' + 1;
        }
        if fe.lastDdnsup > recently {
          recently := fe.lastDdnsup;
          dnsFe := Some(j);
        }
      }
      j := j + 1;
    }
  }

  /* ------------------------------------------------------------------ */
  /* pkb_update_dns                                                      */
  /* ------------------------------------------------------------------ */

  /** Returns the number of kites whose update failed. */
  method UpdateDns(m: PkManager, texts: seq<Option<string>>, replies: seq<string>, now: int) returns (failures: int)
    requires |texts| == m.tunnels.Length && |replies| == m.kites.Length
    modifies m, m.tunnels
    ensures var d := Selector.UpdateDns(old(m.tunnels[..]), m.kites[..], old(m.status), old(m.lastDnsUpdate), now,
                                        m.cfg.ddnsUpdateIntervalMin, old(m.forceUpdate), texts, replies);
      m.tunnels[..] == d.tunnels && m.status == d.status && m.lastDnsUpdate == d.lastDnsUpdate && failures == d.failures
    ensures m.SettingsOf() == old(m.SettingsOf()).(lastDnsUpdate := m.lastDnsUpdate)
    ensures m.liveTunnels == old(m.liveTunnels) && m.liveStreams == old(m.liveStreams)
    ensures m.nextTick == old(m.nextTick) && m.sent == old(m.sent)
  {
    if now < m.lastDnsUpdate + m.cfg.ddnsUpdateIntervalMin {
      return 0;
    }
    var list, listed, bogus := AddressPass(m, texts);
    StaleCountZero(m.tunnels[..], m.forceUpdate);
    if bogus == 0 || list == "" {
      return 0;
    }
    ghost var k :| 0 <= k < m.tunnels.Length && Stale(m.tunnels[k], m.forceUpdate) != 0;
    assert Stale(m.tunnels[..][k], m.forceUpdate) != 0;
    UpdateDnsSends(m.tunnels[..], m.kites[..], m.status, m.lastDnsUpdate, now, m.cfg.ddnsUpdateIntervalMin,
                   m.forceUpdate, texts, replies);
    failures := KiteUpdates(m, replies, listed, now);
    m.lastDnsUpdate := now;
  }

  /** The loop over the kites of an update that is sent. */
  method KiteUpdates(m: PkManager, replies: seq<string>, listed: seq<nat>, now: int) returns (failures: int)
    requires |replies| == m.kites.Length
    modifies m, m.tunnels
    ensures DnsUpdate(m.tunnels[..], m.status, now, failures) ==
            KitePass(m.kites[..], replies, 0, DnsUpdate(old(m.tunnels[..]), old(m.status), now, 0), listed, now)
    ensures m.SettingsOf() == old(m.SettingsOf())
    ensures m.liveTunnels == old(m.liveTunnels) && m.liveStreams == old(m.liveStreams)
    ensures m.nextTick == old(m.nextTick) && m.sent == old(m.sent)
  {
    failures := 0;
    var i := 0;
    while i < m.kites.Length
      invariant 0 <= i <= m.kites.Length
      invariant KitePass(m.kites[..], replies, i, DnsUpdate(m.tunnels[..], m.status, now, failures), listed, now) ==
                KitePass(m.kites[..], replies, 0, DnsUpdate(old(m.tunnels[..]), old(m.status), now, 0), listed, now)
      invariant m.SettingsOf() == old(m.SettingsOf())
      invariant m.liveTunnels == old(m.liveTunnels) && m.liveStreams == old(m.liveStreams)
      invariant m.nextTick == old(m.nextTick) && m.sent == old(m.sent)
    {
      if m.kites[i].protocol != "" {
        m.status := DynDns;
        var reply := replies[i];
        if |reply| < 1 {
          failures := failures + 1;
        } else {
          var result := ReplyBody(reply);
          if StartsWithIgnoreCase(result, "nochg") || StartsWithIgnoreCase(result, "good") {
            MarkListedPass(m, listed, now);
          } else {
            failures := failures + 1;
          }
        }
      }
      i := i + 1;
    }
  }

  /** The loop that builds the address list of the live, wanted front-ends
      and counts the stale ones. */
  method AddressPass(m: PkManager, texts: seq<Option<string>>) returns (list: string, listed: seq<nat>, bogus: int)
    requires |texts| == m.tunnels.Length
    ensures (list, listed) == AddressList(m.tunnels[..], texts, 0, "", [])
    ensures bogus >= 0
    ensures bogus > 0 <==> exists k :: 0 <= k < m.tunnels.Length && Stale(m.tunnels[k], m.forceUpdate) != 0
  {
    list, listed, bogus := "", [], 0;
    var j := 0;
    while j < m.tunnels.Length
      invariant 0 <= j <= m.tunnels.Length && bogus >= 0
      invariant AddressList(m.tunnels[..], texts, j, list, listed) == AddressList(m.tunnels[..], texts, 0, "", [])
      invariant bogus > 0 <==> exists k :: 0 <= k < j && Stale(m.tunnels[k], m.forceUpdate) != 0
    {
      var fe := m.tunnels[j];
      if fe.ai.Some? && fe.hostname.Some? && fe.conn.sockfd >= 0 {
        if FeWanted in fe.conn.status {
          if texts[j].Some? {
            var printip := texts[j].value;
            if |printip| < AddressListLimit - |list| {
              if list != "" {
                list := list + ",";
              }
              list := list + printip;
              listed := listed + [j];
            }
          }
          if FeInDns !in fe.conn.status || m.forceUpdate {
            bogus := bogus + 1;
          }
        } else if FeInDns in fe.conn.status {
          bogus := bogus + 1;
        }
      }
      j := j + 1;
    }
  }

  /** The loop over the listed front-ends after an accepted update. */
  method MarkListedPass(m: PkManager, listed: seq<nat>, now: int)
    modifies m.tunnels
    ensures m.tunnels[..] == MarkListed(old(m.tunnels[..]), listed, now)
  {
    var n := 0;
    while n < |listed|
      invariant 0 <= n <= |listed|
      invariant forall k :: 0 <= k < m.tunnels.Length ==>
                  m.tunnels[k] == if k in listed[..n] then SeenInDns(old(m.tunnels[k]), now) else old(m.tunnels[k])
    {
      var j := listed[n];
      if j < m.tunnels.Length {
        m.tunnels[j] := SeenInDns(m.tunnels[j], now);
      }
      assert listed[..n + 1] == listed[..n] + [listed[n]];
      n := n + 1;
    }
    assert listed[..n] == listed;
  }

  /* ------------------------------------------------------------------ */
  /* pkb_check_world, pkb_check_tunnels, pkb_run_blocker                 */
  /* ------------------------------------------------------------------ */

  /** pkb_check_world, without the ping measurements. */
  method CheckWorld(m: PkManager, addrs: seq<SockAddr>, now: int)
    modifies m, m.tunnels
    ensures old(m.status) == NoNetwork ==> m.tunnels[..] == old(m.tunnels[..]) && m.lastWorldUpdate == old(m.lastWorldUpdate)
    ensures old(m.status) != NoNetwork ==>
      m.tunnels[..] == Selector.CheckKitesDns(ClearTransient(old(m.tunnels[..])), addrs, now, m.cfg.ddnsUpdateIntervalMin) &&
      m.lastWorldUpdate == now + m.intervalFudgeFactor
    ensures m.SettingsOf() == old(m.SettingsOf()).(lastWorldUpdate := m.lastWorldUpdate)
    ensures m.status == old(m.status) && m.liveTunnels == old(m.liveTunnels)
    ensures m.liveStreams == old(m.liveStreams) && m.nextTick == old(m.nextTick) && m.sent == old(m.sent)
  {
    if m.status == NoNetwork {
      return;
    }
    ClearTransientFlags(m);
    CheckKitesDns(m, addrs, now);
    m.lastWorldUpdate := now + m.intervalFudgeFactor;
  }

  /** What a tunnel check leaves behind: the table, the status, the
      bookkeeping it updates and the problem count it ends with. */
  datatype TunnelCheck = TunnelCheck(tunnels: seq<Tunnel>, status: PkStatus, lastDnsUpdate: int,
                                     liveTunnels: int, problems: int)

  /**
   * What a tunnel check does once the front-ends are chosen: reconnect,
   * disconnect only without problems, the DNS update only with a URL and
   * not REJECTED; the problems are the failed connects plus the failed
   * updates, and the status is their Verdict.
   */
  function AfterChoice(chosen: seq<Tunnel>, bes: seq<BeConn>, kites: seq<Kite>, status: PkStatus, liveTunnels: int,
                       lastDnsUpdate: int, force: bool, dynamicDns: bool,
                       env: Environment, now: int, cfg: Config): (r: TunnelCheck)
    requires |env.outcomes| == |chosen| && |env.texts| == |chosen| && |env.replies| == |kites|
  {
    var rc := ReconnectFrom(Reconnect(chosen, status, liveTunnels, 0, 0), 0, |kites|, env.outcomes, now, cfg.windowKb);
    var p1 := rc.tried - rc.connected;
    var kept := if p1 == 0 then Housekeeping.DisconnectUnused(rc.tunnels, bes, now, cfg.windowKb) else rc.tunnels;
    var before := DnsUpdate(kept, rc.status, lastDnsUpdate, 0);
    var d := if dynamicDns && rc.status != Rejected then
               Selector.UpdateDns(kept, kites, rc.status, lastDnsUpdate, now, cfg.ddnsUpdateIntervalMin, force, env.texts, env.replies)
             else before;
    TunnelCheck(d.tunnels, Verdict(p1 + d.failures, rc.liveTunnels, d.status), d.lastDnsUpdate, rc.liveTunnels,
                p1 + d.failures)
  }

  /** The result of a tunnel check started on table `ts`: the DNS check and
      the choice of front-ends, then AfterChoice. */
  function CheckTunnelsResult(ts: seq<Tunnel>, bes: seq<BeConn>, kites: seq<Kite>, status: PkStatus, liveTunnels: int,
                              wantSpare: int, lastDnsUpdate: int, force: bool, dynamicDns: bool,
                              env: Environment, now: int, cfg: Config): (r: TunnelCheck)
    requires |env.outcomes| == |ts| && |env.texts| == |ts| && |env.replies| == |kites|
  {
    var chosen := Selector.ChooseTunnels(Selector.CheckKitesDns(ts, env.answers, now, cfg.ddnsUpdateIntervalMin), wantSpare);
    AfterChoice(chosen, bes, kites, status, liveTunnels, lastDnsUpdate, force, dynamicDns, env, now, cfg)
  }

  /** The manager's table and status are those of tunnel check `c`. */
  predicate Shows(m: PkManager, c: TunnelCheck)
    reads m, m.tunnels
  {
    m.tunnels[..] == c.tunnels && m.status == c.status && m.lastDnsUpdate == c.lastDnsUpdate &&
    m.liveTunnels == c.liveTunnels && !m.forceUpdate
  }

  /** The DNS update of pkb_check_tunnels: only with an update URL and a
      status other than REJECTED; otherwise nothing changes and nothing fails. */
  method UpdateDnsIfWanted(m: PkManager, env: Environment, now: int) returns (failed: int)
    requires Fits(env, m)
    modifies m, m.tunnels
    ensures var d := if m.dynamicDnsUrl.Some? && old(m.status) != Rejected then
                       Selector.UpdateDns(old(m.tunnels[..]), m.kites[..], old(m.status), old(m.lastDnsUpdate), now,
                                          m.cfg.ddnsUpdateIntervalMin, old(m.forceUpdate), env.texts, env.replies)
                     else DnsUpdate(old(m.tunnels[..]), old(m.status), old(m.lastDnsUpdate), 0);
      m.tunnels[..] == d.tunnels && m.status == d.status && m.lastDnsUpdate == d.lastDnsUpdate && failed == d.failures
    ensures m.SettingsOf() == old(m.SettingsOf()).(lastDnsUpdate := m.lastDnsUpdate)
    ensures m.liveTunnels == old(m.liveTunnels) && m.liveStreams == old(m.liveStreams)
    ensures m.nextTick == old(m.nextTick) && m.sent == old(m.sent)
  {
    failed := 0;
    if m.dynamicDnsUrl.Some? && m.status != Rejected {
      failed := UpdateDns(m, env.texts, env.replies, now);
    }
  }

  /** The second half of pkb_check_tunnels, on the chosen front-ends. */
  method ActOnChoice(m: PkManager, env: Environment, now: int) returns (problems: int)
    requires Fits(env, m)
    modifies m, m.tunnels
    ensures var c := AfterChoice(old(m.tunnels[..]), m.beConns[..], m.kites[..], old(m.status), old(m.liveTunnels),
                                 old(m.lastDnsUpdate), old(m.forceUpdate), m.dynamicDnsUrl.Some?, env, now, m.cfg);
      Shows(m, c) && problems == c.problems &&
      m.SettingsOf() == old(m.SettingsOf()).(lastDnsUpdate := m.lastDnsUpdate, forceUpdate := false)
    ensures m.liveStreams == old(m.liveStreams) && m.nextTick == old(m.nextTick) && m.sent == old(m.sent)
  {
    problems := m.ReconnectAll(env.outcomes, now);
    if problems == 0 {
      var _ := m.DisconnectUnused(now);
    }
    var failed := UpdateDnsIfWanted(m, env, now);
    problems := problems + failed;
    Conclude(m, problems);
  }

  /** The end of pkb_check_tunnels: force_update is cleared and the status
      becomes the Verdict on the problems. */
  method Conclude(m: PkManager, problems: int)
    modifies m
    ensures m.status == Verdict(problems, m.liveTunnels, old(m.status)) && !m.forceUpdate
    ensures m.SettingsOf() == old(m.SettingsOf()).(forceUpdate := false) && m.liveTunnels == old(m.liveTunnels)
    ensures m.liveStreams == old(m.liveStreams) && m.nextTick == old(m.nextTick) && m.sent == old(m.sent)
  {
    m.forceUpdate := false;
    if problems == 0 && m.liveTunnels > 0 {
      m.status := Flying;
    } else if m.status != Rejected {
      m.status := Problems;
    }
  }

  /** pkb_check_tunnels: returns the problem count it ends with. */
  method CheckTunnels(m: PkManager, env: Environment, now: int) returns (problems: int)
    requires Fits(env, m)
    modifies m, m.tunnels
    ensures old(m.status) == NoNetwork ==>
      m.tunnels[..] == old(m.tunnels[..]) && m.status == NoNetwork && m.SettingsOf() == old(m.SettingsOf()) &&
      m.liveTunnels == old(m.liveTunnels) && problems == 0
    ensures old(m.status) != NoNetwork ==>
      var c := CheckTunnelsResult(old(m.tunnels[..]), m.beConns[..], m.kites[..], old(m.status), old(m.liveTunnels),
                                  old(m.wantSpareFrontends), old(m.lastDnsUpdate), old(m.forceUpdate),
                                  m.dynamicDnsUrl.Some?, env, now, m.cfg);
      Shows(m, c) && problems == c.problems &&
      m.SettingsOf() == old(m.SettingsOf()).(lastDnsUpdate := m.lastDnsUpdate, forceUpdate := false)
    ensures m.liveStreams == old(m.liveStreams) && m.nextTick == old(m.nextTick) && m.sent == old(m.sent)
  {
    if m.status == NoNetwork {
      return 0;
    }
    CheckKitesDns(m, env.answers, now);
    ChooseTunnels(m);
    problems := ActOnChoice(m, env, now);
  }

  /**
   * One job of pkb_run_blocker.  `lastCheckWorld` and `lastCheckTunnels`
   * are the thread's own timestamps; the wait for a job is the requirement
   * that one is waiting.  A QUIT job is put back for the other threads and
   * ends the thread.
   */
  method RunBlocker(m: PkManager, env: Environment, lastCheckWorld: int, lastCheckTunnels: int, now: int)
    returns (quit: bool, lastCheckWorld': int, lastCheckTunnels': int)
    requires m.Valid() && m.jobs.count > 0 && Fits(env, m)
    modifies m, m.tunnels, m.jobs, m.jobs.pile
    ensures m.Valid()
    ensures FirstSlot(old(m.jobs.pile[..]), false).Some?
    ensures var job := old(m.jobs.pile[FirstSlot(m.jobs.pile[..], false).value]);
      var due := m.cfg.housekeepingIntervalMin;
      (quit <==> job.kind.Quit?) &&
      (job.kind.Quit? ==>
         Jobs(m.jobs.pile[..]) + multiset{job} == Jobs(old(m.jobs.pile[..])) + multiset{Job(Quit, None)} &&
         m.jobs.count == old(m.jobs.count)) &&
      (!job.kind.Quit? ==> Jobs(m.jobs.pile[..]) + multiset{job} == Jobs(old(m.jobs.pile[..]))) &&
      (job.kind.CheckWorld? && now >= lastCheckWorld + due ==>
         lastCheckWorld' == now && lastCheckTunnels' == now) &&
      (job.kind.CheckFrontends? && now >= lastCheckTunnels + due ==>
         lastCheckWorld' == lastCheckWorld && lastCheckTunnels' == now) &&
      (!(job.kind.CheckWorld? && now >= lastCheckWorld + due) &&
       !(job.kind.CheckFrontends? && now >= lastCheckTunnels + due) ==>
         lastCheckWorld' == lastCheckWorld && lastCheckTunnels' == lastCheckTunnels &&
         m.tunnels[..] == old(m.tunnels[..]) && m.status == old(m.status))
    /** A due check with NO_NETWORK changes neither the table nor the status. */
    ensures old(m.status) == NoNetwork ==> m.tunnels[..] == old(m.tunnels[..]) && m.status == NoNetwork
    /** A due CHECK_FRONTENDS is one tunnel check on the table as it stood. */
    ensures var job := old(m.jobs.pile[FirstSlot(m.jobs.pile[..], false).value]);
      job.kind.CheckFrontends? && now >= lastCheckTunnels + m.cfg.housekeepingIntervalMin && old(m.status) != NoNetwork ==>
        Shows(m, CheckTunnelsResult(old(m.tunnels[..]), m.beConns[..], m.kites[..], old(m.status), old(m.liveTunnels),
                                    old(m.wantSpareFrontends), old(m.lastDnsUpdate), old(m.forceUpdate),
                                    m.dynamicDnsUrl.Some?, env, now, m.cfg))
    /** A due CHECK_WORLD clears the transient flags, checks DNS with the
        world answers and stamps the world update, then checks the tunnels. */
    ensures var job := old(m.jobs.pile[FirstSlot(m.jobs.pile[..], false).value]);
      job.kind.CheckWorld? && now >= lastCheckWorld + m.cfg.housekeepingIntervalMin && old(m.status) != NoNetwork ==>
        Shows(m, CheckTunnelsResult(Selector.CheckKitesDns(ClearTransient(old(m.tunnels[..])), env.worldAnswers, now,
                                                           m.cfg.ddnsUpdateIntervalMin),
                                    m.beConns[..], m.kites[..], old(m.status), old(m.liveTunnels),
                                    old(m.wantSpareFrontends), old(m.lastDnsUpdate), old(m.forceUpdate),
                                    m.dynamicDnsUrl.Some?, env, now, m.cfg)) &&
        m.lastWorldUpdate == now + m.intervalFudgeFactor
  {
    lastCheckWorld', lastCheckTunnels' := lastCheckWorld, lastCheckTunnels;
    var _, job := m.jobs.GetJob();
    quit := false;
    match job.kind {
      case NoJob =>
      case CheckWorld =>
        if now >= lastCheckWorld + m.cfg.housekeepingIntervalMin {
          CheckWorld(m, env.worldAnswers, now);
          var _ := CheckTunnels(m, env, now);
          lastCheckWorld', lastCheckTunnels' := now, now;
        }
      case CheckFrontends =>
        if now >= lastCheckTunnels + m.cfg.housekeepingIntervalMin {
          var _ := CheckTunnels(m, env, now);
          lastCheckTunnels' := now;
        }
      case Quit =>
        ghost var taken := m.jobs.pile[..];
        assert FirstSlot(taken, true).Some?;
        var _ := m.jobs.AddJob(Quit, None);
        quit := true;
    }
  }
}
