/**
 * The table tests of pkmanager_test, run against the model: a manager built
 * with the default sizes, the job pile round trip, filling the front-end
 * and kite tables until they refuse, and the backend stream table.
 */
module Scenarios {
  import opened Wrappers
  import opened State
  import opened Pool
  import opened Tables
  import opened JobPile
  import opened Manager
  import Utils

  /** The zeroed struct addrinfo the front-end test adds over and over. */
  const ZeroedAi: AddrInfo := AddrInfo(0, None)

  /** The kite record pkm_add_kite stores for the test's arguments. */
  const TestKite: Kite := Kite("http", "sec", "foo", 80, "localhost", 80)

  /** Adding the zeroed address to an empty front-end table succeeds once
      per slot, and the next attempt reports ERR_NO_MORE_FRONTENDS. */
  method FillFrontends(m: PkManager, flags: Status) returns (added: nat, last: AddFrontendResult)
    requires forall k :: 0 <= k < m.tunnels.Length ==> m.tunnels[k].ai.None?
    modifies m.tunnels
    ensures added == m.tunnels.Length && last == NoMoreFrontends
    ensures forall k :: 0 <= k < m.tunnels.Length ==>
              m.tunnels[k].ai == Some(ZeroedAi) && m.tunnels[k].hostname == Some("woot") && m.tunnels[k].port == 123
  {
    added := 0;
    var i := 0;
    while i < m.tunnels.Length
      invariant i <= m.tunnels.Length && added == i
      invariant forall k :: 0 <= k < i ==>
                  m.tunnels[k].ai == Some(ZeroedAi) && m.tunnels[k].hostname == Some("woot") && m.tunnels[k].port == 123
      invariant forall k :: i <= k < m.tunnels.Length ==> m.tunnels[k].ai.None?
    {
      ZeroLengthNeverDuplicate(m.tunnels[..], ZeroedAi);
      assert m.tunnels[..][i].ai.None?;
      assert FirstFreeTunnel(m.tunnels[..]) == Some(i);
      var r := m.AddFrontendAi(ZeroedAi, "woot", 123, flags);
      if r.FrontendAdded? {
        added := added + 1;
      }
      i := i + 1;
    }
    ZeroLengthNeverDuplicate(m.tunnels[..], ZeroedAi);
    last := m.AddFrontendAi(ZeroedAi, "woot", 123, flags);
  }

  /** Adding the same kite to an empty kite table succeeds once per slot,
      and the next attempt reports ERR_NO_MORE_KITES. */
  method FillKites(m: PkManager) returns (added: nat, last: AddKiteResult)
    requires forall k :: 0 <= k < m.kites.Length ==> m.kites[k] == EmptyKite
    modifies m.kites
    ensures added == m.kites.Length && last == NoMoreKites
    ensures forall k :: 0 <= k < m.kites.Length ==> m.kites[k] == TestKite
  {
    StoredKitePlain();
    added := 0;
    var i := 0;
    while i < m.kites.Length
      invariant i <= m.kites.Length && added == i
      invariant forall k :: 0 <= k < i ==> m.kites[k] == TestKite
      invariant forall k :: i <= k < m.kites.Length ==> m.kites[k] == EmptyKite
    {
      assert m.kites[..][i].protocol == "";
      assert FirstFreeKite(m.kites[..]) == Some(i);
      var r := m.AddKite("http", "foo", 80, "sec", "localhost", 80);
      if r.KiteAdded? {
        added := added + 1;
      }
      i := i + 1;
    }
    last := m.AddKite("http", "foo", 80, "sec", "localhost", 80);
  }

  /** Every claimed stream slot starts with nothing read. */
  predicate FreshClaims(bes: seq<BeConn>)
  {
    forall k :: 0 <= k < |bes| && !IsFreeSlot(bes[k]) ==> bes[k].conn.readKb == 0
  }

  /** One allocation into a table that still has the free slot `free`:
      it succeeds, the slot it hands out was free, and every other slot is
      left as it was. */
  method AllocInto(m: PkManager, sid: string, now: int, free: nat) returns (r: nat)
    requires m.Valid() && free < m.beConns.Length && IsFreeSlot(m.beConns[free])
    requires FreshClaims(m.beConns[..])
    modifies m, m.beConns
    ensures m.Valid()
    ensures r < m.beConns.Length && IsFreeSlot(old(m.beConns[r])) && Holds(m.beConns[r], None, sid)
    ensures forall k :: 0 <= k < m.beConns.Length && k != r ==> m.beConns[k] == old(m.beConns[k])
    ensures FreshClaims(m.beConns[..])
  {
    AllocClaimsFreeSlot(m.StreamsOf(), None, sid, now, m.connEvictionIdleS, m.cfg.windowKb, free);
    var slot := m.AllocBeConn(None, sid, now);
    r := slot.value;
  }

  /**
   * pkmanager_test on a manager built with the default sizes: the tables
   * have the configured minimum sizes; QUIT goes through the job pile and
   * the count returns to 0; every front-end and kite slot can be filled
   * and one more is refused; the kite is found on its domain and not on
   * another; and a stream allocated among three can be found, starts with
   * nothing read, and is gone once freed.
   */
  method ManagerSelfTest(cfg: Config, now: int, flags: Status)
    returns (sizes: (int, int, int), countBetween: int, job: Job, countAfter: int,
             frontends: nat, lastFrontend: AddFrontendResult, kitesAdded: nat, lastKite: AddKiteResult,
             foo: Option<nat>, bar: Option<nat>,
             before: Option<nat>, found: Option<nat>, foundSid: string, foundReadKb: int, after: Option<nat>)
    requires cfg.housekeepingIntervalMin > 0 && cfg.minConnAlloc >= 3 && cfg.minKiteAlloc > 0
    ensures sizes == (cfg.minFeAlloc as int, cfg.minKiteAlloc as int, cfg.minConnAlloc as int)
    ensures countBetween == 1 && job.kind == Quit && countAfter == 0
    ensures frontends == cfg.minFeAlloc && lastFrontend == NoMoreFrontends
    ensures kitesAdded == cfg.minKiteAlloc && lastKite == NoMoreKites
    ensures foo.Some? && bar.None?
    ensures before.None? && found.Some? && foundSid == "abc" && foundReadKb == 0 && after.None?
  {
    var m := new PkManager(cfg, -1, -1, -1, now, 0, 0, None);
    sizes := (m.tunnels.Length, m.kites.Length, m.beConns.Length);

    var added, taken;
    added, countBetween, taken, job, countAfter := QuitRoundTrip(m.jobs);

    frontends, lastFrontend := FillFrontends(m, flags);
    kitesAdded, lastKite := FillKites(m);
    foo, bar := KiteLookups(m.kites[..]);

    before, found, foundSid, foundReadKb, after := StreamTest(m, now);
  }

  /** The kite lookups of pkmanager_test on a full table of the test's
      kite: its own domain is found, another domain is not. */
  method KiteLookups(kites: seq<Kite>) returns (foo: Option<nat>, bar: Option<nat>)
    requires |kites| > 0 && forall k :: 0 <= k < |kites| ==> kites[k] == TestKite
    ensures foo == Some(0) && bar.None?
  {
    foo := FindKite(kites, "http", "foo", 80);
    bar := FindKite(kites, "http", "bar", 80);
    assert ExactKite(kites[0], "http", "foo", 80);
    assert Utils.Lower("bar"[0]) != Utils.Lower("foo"[0]);
    assert !KiteMatches(TestKite, "http", "bar");
  }

  /** The stream part of pkmanager_test on a table of free slots. */
  method StreamTest(m: PkManager, now: int)
    returns (before: Option<nat>, found: Option<nat>, foundSid: string, foundReadKb: int, after: Option<nat>)
    requires m.Valid() && m.beConns.Length >= 3
    requires forall k :: 0 <= k < m.beConns.Length ==> IsFreeSlot(m.beConns[k])
    modifies m, m.beConns
    ensures before.None? && found.Some? && foundSid == "abc" && foundReadKb == 0 && after.None?
  {
    FindBeConnSpec(m.beConns[..], None, "abc");
    before := FindBeConn(m.beConns[..], None, "abc");

    var a := AllocInto(m, "abc", now, 0);
    var b := AllocInto(m, "abcd", now, if a == 0 then 1 else 0);
    var c := AllocInto(m, "abcef", now, if a != 0 && b != 0 then 0 else if a != 1 && b != 1 then 1 else 2);

    var bes := m.beConns[..];
    assert forall k :: 0 <= k < |bes| && !IsFreeSlot(bes[k]) ==> k == a || k == b || k == c;
    FindBeConnSpec(bes, None, "abc");
    assert Holds(bes[a], None, "abc");
    found := FindBeConn(bes, None, "abc");
    var f := found.value;
    foundSid := m.beConns[f].sid;
    foundReadKb := m.beConns[f].conn.readKb;

    m.FreeBeConn(f);
    assert f == a;
    FindBeConnSpec(m.beConns[..], None, "abc");
    after := FindBeConn(m.beConns[..], None, "abc");
  }
}
