/**
 * What the blocking thread of libpagekite/pkblocker.c does to the tunnel
 * table, as functions of the table: clearing the transient flags, choosing
 * the front-ends to use, tracking which front-ends are published in DNS and
 * the accounting of a dynamic-DNS update.  DNS answers, the text form of
 * addresses and the replies of the update server are inputs.
 */
module Selector {
  import opened Wrappers
  import opened Utils
  import opened State

  /** A slot that holds a configured front-end: an address and a name. */
  predicate IsFrontend(t: Tunnel)
  {
    t.ai.Some? && t.hostname.Some?
  }

  function WithStatus(t: Tunnel, s: Status): Tunnel
  {
    t.(conn := t.conn.(status := s))
  }

  /** The tunnel is the same apart from its status word. */
  predicate SameButStatus(a: Tunnel, b: Tunnel)
  {
    a == WithStatus(b, a.conn.status)
  }

  /* ------------------------------------------------------------------ */
  /* pkb_clear_transient_flags                                           */
  /* ------------------------------------------------------------------ */

  function ClearTransient(ts: seq<Tunnel>): (r: seq<Tunnel>)
    ensures |r| == |ts|
  {
    seq(|ts|, k requires 0 <= k < |ts| => WithStatus(ts[k], ts[k].conn.status - TransientBits))
  }

  /** Exactly REJECTED, LAME, IS_FAST and IN_DNS go, on every tunnel, and
      clearing twice is clearing once. */
  lemma ClearTransientSpec(ts: seq<Tunnel>)
    ensures var r := ClearTransient(ts);
      forall k :: 0 <= k < |ts| ==>
        SameButStatus(r[k], ts[k]) &&
        (forall f :: f in r[k].conn.status <==> f in ts[k].conn.status && f !in {FeRejected, FeLame, FeIsFast, FeInDns})
    ensures ClearTransient(ClearTransient(ts)) == ClearTransient(ts)
  {
    var r := ClearTransient(ts);
    var rr := ClearTransient(r);
    assert forall k :: 0 <= k < |ts| ==> rr[k] == r[k];
  }

  /* ------------------------------------------------------------------ */
  /* pkb_choose_tunnels                                                  */
  /* ------------------------------------------------------------------ */

  /** The first pass: WANTED and IS_FAST are cleared on every front-end. */
  function ClearWanted(ts: seq<Tunnel>): (r: seq<Tunnel>)
    ensures |r| == |ts|
  {
    seq(|ts|, k requires 0 <= k < |ts| =>
      if IsFrontend(ts[k]) then WithStatus(ts[k], ts[k].conn.status - {FeWanted, FeIsFast}) else ts[k])
  }

  /** The ranking of a front-end: measured priority plus 25 per error. */
  function Rank(t: Tunnel): int
  {
    t.priority + 25 * t.errorCount
  }

  /** A front-end a round of the fastest-first choice may pick. */
  predicate Candidate(t: Tunnel)
  {
    IsFrontend(t) && t.priority != 0 &&
    FeIsFast !in t.conn.status && FeRejected !in t.conn.status && FeLame !in t.conn.status
  }

  /** One round's scan from slot i on, `best` the pick so far: a later
      candidate replaces it only when strictly better. */
  function BestFrom(ts: seq<Tunnel>, i: nat, best: Option<nat>): (r: Option<nat>)
    requires i <= |ts| && (best.Some? ==> best.value < i)
    ensures r.Some? ==> r.value < |ts|
    decreases |ts| - i
  {
    if i == |ts| then best
    else if Candidate(ts[i]) && (best.None? || Rank(ts[best.value]) > Rank(ts[i])) then BestFrom(ts, i + 1, Some(i))
    else BestFrom(ts, i + 1, best)
  }

  function Best(ts: seq<Tunnel>): (r: Option<nat>)
    ensures r.Some? ==> r.value < |ts|
  {
    BestFrom(ts, 0, None)
  }

  /** The pick so far is a candidate of minimal rank among slots before i,
      and the first such. */
  predicate BestSoFar(ts: seq<Tunnel>, i: nat, best: Option<nat>)
    requires i <= |ts|
  {
    match best
    case None => forall k :: 0 <= k < i ==> !Candidate(ts[k])
    case Some(j) =>
      j < i && Candidate(ts[j]) &&
      (forall k :: 0 <= k < i && Candidate(ts[k]) ==> Rank(ts[j]) <= Rank(ts[k])) &&
      (forall k :: 0 <= k < j && Candidate(ts[k]) ==> Rank(ts[j]) < Rank(ts[k]))
  }

  lemma {:induction false} BestFromSpec(ts: seq<Tunnel>, i: nat, best: Option<nat>)
    requires i <= |ts| && (best.Some? ==> best.value < i)
    requires BestSoFar(ts, i, best)
    ensures BestSoFar(ts, |ts|, BestFrom(ts, i, best))
    decreases |ts| - i
  {
    if i < |ts| {
      if Candidate(ts[i]) && (best.None? || Rank(ts[best.value]) > Rank(ts[i])) {
        BestFromSpec(ts, i + 1, Some(i));
      } else {
        BestFromSpec(ts, i + 1, best);
      }
    }
  }

  /** A round picks a candidate of least rank, the lowest-numbered one on a
      tie, and picks nothing only when there is no candidate. */
  lemma BestSpec(ts: seq<Tunnel>)
    ensures match Best(ts)
      case None => forall k :: 0 <= k < |ts| ==> !Candidate(ts[k])
      case Some(j) =>
        Candidate(ts[j]) &&
        (forall k :: 0 <= k < |ts| && Candidate(ts[k]) ==> Rank(ts[j]) <= Rank(ts[k])) &&
        (forall k :: 0 <= k < j && Candidate(ts[k]) ==> Rank(ts[j]) < Rank(ts[k]))
  {
    BestFromSpec(ts, 0, None);
  }

  /** One round: the pick, if any, is marked IS_FAST. */
  function FastRound(ts: seq<Tunnel>): (r: seq<Tunnel>)
    ensures |r| == |ts|
  {
    match Best(ts)
    case None => ts
    case Some(j) => ts[j := WithStatus(ts[j], ts[j].conn.status + {FeIsFast})]
  }

  /** `rounds` rounds of the choice. */
  function MarkFast(ts: seq<Tunnel>, rounds: int): (r: seq<Tunnel>)
    ensures |r| == |ts|
    decreases rounds
  {
    if rounds <= 0 then ts else MarkFast(FastRound(ts), rounds - 1)
  }

  /** The number of slots marked IS_FAST. */
  function CountFast(ts: seq<Tunnel>): nat
  {
    if ts == [] then 0 else (if FeIsFast in ts[0].conn.status then 1 else 0) + CountFast(ts[1..])
  }

  lemma {:induction false} CountFastUpdate(ts: seq<Tunnel>, j: nat, t: Tunnel)
    requires j < |ts| && FeIsFast !in ts[j].conn.status && FeIsFast in t.conn.status
    ensures CountFast(ts[j := t]) == CountFast(ts) + 1
  {
    if j > 0 {
      assert ts[j := t][1..] == ts[1..][j - 1 := t];
      CountFastUpdate(ts[1..], j - 1, t);
    } else {
      assert ts[j := t][1..] == ts[1..];
    }
  }

  /** One round marks at most one front-end IS_FAST, a candidate, and
      changes no other bit and no other field. */
  lemma FastRoundSpec(ts: seq<Tunnel>)
    ensures var r := FastRound(ts);
      CountFast(r) <= CountFast(ts) + 1 &&
      forall k :: 0 <= k < |ts| ==>
        SameButStatus(r[k], ts[k]) &&
        r[k].conn.status - {FeIsFast} == ts[k].conn.status - {FeIsFast} &&
        (FeIsFast in ts[k].conn.status ==> FeIsFast in r[k].conn.status) &&
        (FeIsFast in r[k].conn.status && FeIsFast !in ts[k].conn.status ==> Candidate(ts[k]))
  {
    BestSpec(ts);
    if Best(ts).Some? {
      var j := Best(ts).value;
      CountFastUpdate(ts, j, FastRound(ts)[j]);
    }
  }

  /**
   * The rounds mark at most `rounds` front-ends IS_FAST, each of them a
   * candidate when the choice began, and change no other bit and no other
   * field.
   */
  lemma {:induction false} MarkFastSpec(ts: seq<Tunnel>, rounds: int)
    ensures var r := MarkFast(ts, rounds);
      CountFast(r) <= CountFast(ts) + (if rounds < 0 then 0 else rounds) &&
      forall k :: 0 <= k < |ts| ==>
        SameButStatus(r[k], ts[k]) &&
        r[k].conn.status - {FeIsFast} == ts[k].conn.status - {FeIsFast} &&
        (FeIsFast in ts[k].conn.status ==> FeIsFast in r[k].conn.status) &&
        (FeIsFast in r[k].conn.status && FeIsFast !in ts[k].conn.status ==> Candidate(ts[k]))
    decreases rounds
  {
    if rounds > 0 {
      var t1 := FastRound(ts);
      FastRoundSpec(ts);
      MarkFastSpec(t1, rounds - 1);
      var r := MarkFast(t1, rounds - 1);
      assert r == MarkFast(ts, rounds);
      forall k | 0 <= k < |ts| && FeIsFast in r[k].conn.status && FeIsFast !in ts[k].conn.status
        ensures Candidate(ts[k])
      {
        if FeIsFast !in t1[k].conn.status {
          assert Candidate(t1[k]);
        }
      }
    }
  }

  /** The WANTED rule for one slot: a front-end is wanted when nailed up or
      fast, and never when rejecting us or lame. */
  function Wanting(t: Tunnel): (r: Tunnel)
  {
    if t.hostname.None? then t
    else
      var s := t.conn.status;
      var s1 := if FeNailedUp in s || FeIsFast in s then s + {FeWanted} else s - {FeWanted};
      WithStatus(t, if FeRejected in s1 || FeLame in s1 then s1 - {FeWanted} else s1)
  }

  function WantedRule(ts: seq<Tunnel>): (r: seq<Tunnel>)
    ensures |r| == |ts|
  {
    seq(|ts|, k requires 0 <= k < |ts| => Wanting(ts[k]))
  }

  lemma WantedRuleSpec(ts: seq<Tunnel>)
    ensures var r := WantedRule(ts);
      forall k :: 0 <= k < |ts| ==>
        SameButStatus(r[k], ts[k]) &&
        r[k].conn.status - {FeWanted} == ts[k].conn.status - {FeWanted} &&
        (ts[k].hostname.None? ==> r[k] == ts[k]) &&
        (ts[k].hostname.Some? ==>
          (FeWanted in r[k].conn.status <==>
             (FeNailedUp in ts[k].conn.status || FeIsFast in ts[k].conn.status) &&
             FeRejected !in ts[k].conn.status && FeLame !in ts[k].conn.status))
  {
  }

  /** Named front-ends wanted or in DNS: what the choice aims for. */
  function Aiming(ts: seq<Tunnel>): nat
  {
    if ts == [] then 0
    else (if ts[0].hostname.Some? && (FeWanted in ts[0].conn.status || FeInDns in ts[0].conn.status) then 1 else 0) +
         Aiming(ts[1..])
  }

  lemma {:induction false} AimingZero(ts: seq<Tunnel>)
    ensures Aiming(ts) == 0 <==>
      forall k :: 0 <= k < |ts| && ts[k].hostname.Some? ==>
        FeWanted !in ts[k].conn.status && FeInDns !in ts[k].conn.status
  {
    if ts != [] {
      AimingZero(ts[1..]);
      assert forall k :: 1 <= k < |ts| ==> ts[k] == ts[1..][k - 1];
    }
  }

  /** A front-end not rejecting us and not lame. */
  predicate Usable(t: Tunnel)
  {
    IsFrontend(t) && FeRejected !in t.conn.status && FeLame !in t.conn.status
  }

  function FirstUsableFrom(ts: seq<Tunnel>, i: nat): (r: Option<nat>)
    requires i <= |ts|
    ensures r.Some? ==> i <= r.value < |ts| && Usable(ts[r.value]) &&
                        forall k :: i <= k < r.value ==> !Usable(ts[k])
    ensures r.None? ==> forall k :: i <= k < |ts| ==> !Usable(ts[k])
    decreases |ts| - i
  {
    if i == |ts| then None
    else if Usable(ts[i]) then Some(i)
    else FirstUsableFrom(ts, i + 1)
  }

  /** The second fallback: every front-end with a live socket is wanted. */
  function KeepLive(ts: seq<Tunnel>): (r: seq<Tunnel>)
    ensures |r| == |ts|
  {
    seq(|ts|, k requires 0 <= k < |ts| =>
      if IsFrontend(ts[k]) && ts[k].conn.sockfd > 0 then WithStatus(ts[k], ts[k].conn.status + {FeWanted}) else ts[k])
  }

  function AddWanted(t: Tunnel): Tunnel
  {
    WithStatus(t, t.conn.status + {FeWanted})
  }

  /** pkb_choose_tunnels as a function of the table. */
  function ChooseTunnels(ts: seq<Tunnel>, wantSpare: int): (r: seq<Tunnel>)
    ensures |r| == |ts|
  {
    var chosen := WantedRule(MarkFast(ClearWanted(ts), wantSpare + 1));
    if Aiming(chosen) > 0 then chosen
    else match FirstUsableFrom(chosen, 0)
      case Some(j) => chosen[j := AddWanted(chosen[j])]
      case None => KeepLive(chosen)
  }

  /**
   * When the rule leaves no named front-end wanted or in DNS, exactly one
   * fallback applies: the first usable front-end becomes wanted; failing
   * that every front-end with a live socket does; failing that nothing
   * changes.  Otherwise the rule's result stands.
   */
  lemma ChooseTunnelsFallbacks(ts: seq<Tunnel>, wantSpare: int)
    ensures var chosen := WantedRule(MarkFast(ClearWanted(ts), wantSpare + 1));
      var r := ChooseTunnels(ts, wantSpare);
      ((exists k :: 0 <= k < |ts| && chosen[k].hostname.Some? &&
         (FeWanted in chosen[k].conn.status || FeInDns in chosen[k].conn.status)) ==> r == chosen) &&
      ((forall k :: 0 <= k < |ts| && chosen[k].hostname.Some? ==>
         FeWanted !in chosen[k].conn.status && FeInDns !in chosen[k].conn.status) ==>
        ((exists k :: 0 <= k < |ts| && Usable(chosen[k])) ==>
           exists j :: 0 <= j < |ts| && Usable(chosen[j]) && (forall k :: 0 <= k < j ==> !Usable(chosen[k])) &&
                       r == chosen[j := AddWanted(chosen[j])]) &&
        ((forall k :: 0 <= k < |ts| ==> !Usable(chosen[k])) ==>
           forall k :: 0 <= k < |ts| ==>
             SameButStatus(r[k], chosen[k]) &&
             (FeWanted in r[k].conn.status <==>
                FeWanted in chosen[k].conn.status || (IsFrontend(chosen[k]) && chosen[k].conn.sockfd > 0))))
  {
    var chosen := WantedRule(MarkFast(ClearWanted(ts), wantSpare + 1));
    AimingZero(chosen);
  }

  /* ------------------------------------------------------------------ */
  /* pkb_check_kites_dns                                                 */
  /* ------------------------------------------------------------------ */

  /** The front-end's address is one of the addresses DNS gave for a kite. */
  predicate Resolves(t: Tunnel, addr: SockAddr)
  {
    IsFrontend(t) && AddrCmp(t.ai.value.addr, Some(addr)) == 0
  }

  predicate ResolvedBy(t: Tunnel, addrs: seq<SockAddr>, n: nat)
    requires n <= |addrs|
  {
    exists m :: 0 <= m < n && Resolves(t, addrs[m])
  }

  function ClearInDns(ts: seq<Tunnel>): (r: seq<Tunnel>)
    ensures |r| == |ts|
  {
    seq(|ts|, k requires 0 <= k < |ts| => WithStatus(ts[k], ts[k].conn.status - {FeInDns}))
  }

  /** Seen in DNS now. */
  function SeenInDns(t: Tunnel, now: int): Tunnel
  {
    t.(conn := t.conn.(status := t.conn.status + {FeInDns}), lastDdnsup := now)
  }

  /** The slot after the first `n` DNS answers have been compared with it. */
  function Matched(t: Tunnel, addrs: seq<SockAddr>, n: nat, now: int): Tunnel
    requires n <= |addrs|
  {
    if ResolvedBy(t, addrs, n) then SeenInDns(t, now) else t
  }

  function MatchAnswers(ts: seq<Tunnel>, addrs: seq<SockAddr>, now: int): (r: seq<Tunnel>)
    ensures |r| == |ts|
  {
    seq(|ts|, k requires 0 <= k < |ts| => Matched(ts[k], addrs, |addrs|, now))
  }

  /** Published within the update window: IN_DNS is renewed. */
  function Renew(t: Tunnel, window: int): Tunnel
  {
    if IsFrontend(t) && t.lastDdnsup > window then WithStatus(t, t.conn.status + {FeInDns}) else t
  }

  function RenewAll(ts: seq<Tunnel>, window: int): (r: seq<Tunnel>)
    ensures |r| == |ts|
  {
    seq(|ts|, k requires 0 <= k < |ts| => Renew(ts[k], window))
  }

  /** The front-end most recently seen in DNS, scanning from slot i with the
      newest time so far `recently`; a later one must be strictly newer. */
  function MostRecentFrom(ts: seq<Tunnel>, i: nat, recently: int, fe: Option<nat>): (r: Option<nat>)
    requires i <= |ts| && (fe.Some? ==> fe.value < i)
    ensures r.Some? ==> r.value < |ts|
    decreases |ts| - i
  {
    if i == |ts| then fe
    else if IsFrontend(ts[i]) && ts[i].lastDdnsup > recently then MostRecentFrom(ts, i + 1, ts[i].lastDdnsup, Some(i))
    else MostRecentFrom(ts, i + 1, recently, fe)
  }

  function MostRecent(ts: seq<Tunnel>): (r: Option<nat>)
    ensures r.Some? ==> r.value < |ts|
  {
    MostRecentFrom(ts, 0, 0, None)
  }

  predicate NewestSoFar(ts: seq<Tunnel>, i: nat, recently: int, fe: Option<nat>)
    requires i <= |ts|
  {
    recently >= 0 &&
    match fe
    case None => recently == 0 && forall k :: 0 <= k < i && IsFrontend(ts[k]) ==> ts[k].lastDdnsup <= 0
    case Some(j) =>
      j < i && IsFrontend(ts[j]) && ts[j].lastDdnsup == recently && recently > 0 &&
      (forall k :: 0 <= k < i && IsFrontend(ts[k]) ==> ts[k].lastDdnsup <= recently) &&
      (forall k :: 0 <= k < j && IsFrontend(ts[k]) ==> ts[k].lastDdnsup < recently)
  }

  lemma {:induction false} MostRecentFromSpec(ts: seq<Tunnel>, i: nat, recently: int, fe: Option<nat>)
    requires i <= |ts| && (fe.Some? ==> fe.value < i)
    requires NewestSoFar(ts, i, recently, fe)
    ensures exists rec :: NewestSoFar(ts, |ts|, rec, MostRecentFrom(ts, i, recently, fe))
    decreases |ts| - i
  {
    if i == |ts| {
      assert MostRecentFrom(ts, i, recently, fe) == fe;
      assert NewestSoFar(ts, |ts|, recently, MostRecentFrom(ts, i, recently, fe));
    } else if IsFrontend(ts[i]) && ts[i].lastDdnsup > recently {
      assert NewestSoFar(ts, i + 1, ts[i].lastDdnsup, Some(i));
      assert MostRecentFrom(ts, i, recently, fe) == MostRecentFrom(ts, i + 1, ts[i].lastDdnsup, Some(i));
      MostRecentFromSpec(ts, i + 1, ts[i].lastDdnsup, Some(i));
    } else {
      assert NewestSoFar(ts, i + 1, recently, fe);
      assert MostRecentFrom(ts, i, recently, fe) == MostRecentFrom(ts, i + 1, recently, fe);
      MostRecentFromSpec(ts, i + 1, recently, fe);
    }
  }

  /** The fallback pick is the first front-end with the greatest positive
      last-seen time; there is none when no front-end was ever seen. */
  lemma MostRecentSpec(ts: seq<Tunnel>)
    ensures match MostRecent(ts)
      case None => forall k :: 0 <= k < |ts| && IsFrontend(ts[k]) ==> ts[k].lastDdnsup <= 0
      case Some(j) =>
        IsFrontend(ts[j]) && ts[j].lastDdnsup > 0 &&
        (forall k :: 0 <= k < |ts| && IsFrontend(ts[k]) ==> ts[k].lastDdnsup <= ts[j].lastDdnsup) &&
        (forall k :: 0 <= k < j && IsFrontend(ts[k]) ==> ts[k].lastDdnsup < ts[j].lastDdnsup)
  {
    assert NewestSoFar(ts, 0, 0, None);
    MostRecentFromSpec(ts, 0, 0, None);
  }

  predicate AnyInDns(ts: seq<Tunnel>)
  {
    exists k :: 0 <= k < |ts| && FeInDns in ts[k].conn.status
  }

  function AddInDns(t: Tunnel): Tunnel
  {
    WithStatus(t, t.conn.status + {FeInDns})
  }

  /** The table after the answers are compared: IN_DNS cleared first. */
  function Matches(ts: seq<Tunnel>, addrs: seq<SockAddr>, now: int): (r: seq<Tunnel>)
    ensures |r| == |ts|
  {
    MatchAnswers(ClearInDns(ts), addrs, now)
  }

  /** The table after the answers and the renewals, before the fallback. */
  function SeenOrRenewed(ts: seq<Tunnel>, addrs: seq<SockAddr>, now: int, ddnsMin: int): (r: seq<Tunnel>)
    ensures |r| == |ts|
  {
    RenewAll(Matches(ts, addrs, now), now - ddnsMin)
  }

  /** pkb_check_kites_dns with `addrs` all the addresses DNS gave for the
      kites' public names, kite by kite. */
  function CheckKitesDns(ts: seq<Tunnel>, addrs: seq<SockAddr>, now: int, ddnsMin: int): (r: seq<Tunnel>)
    ensures |r| == |ts|
  {
    var seen := SeenOrRenewed(ts, addrs, now, ddnsMin);
    var recent := MostRecent(Matches(ts, addrs, now));
    if !AnyInDns(seen) && recent.Some? then seen[recent.value := AddInDns(seen[recent.value])]
    else seen
  }

  /** One more answer compared. */
  lemma ResolvedByStep(t: Tunnel, addrs: seq<SockAddr>, n: nat)
    requires n < |addrs|
    ensures ResolvedBy(t, addrs, n + 1) <==> ResolvedBy(t, addrs, n) || Resolves(t, addrs[n])
  {
    if ResolvedBy(t, addrs, n + 1) && !Resolves(t, addrs[n]) {
      var m :| 0 <= m < n + 1 && Resolves(t, addrs[m]);
      assert m < n;
    }
  }

  /**
   * A front-end whose address DNS gave is IN_DNS and seen now; any
   * front-end seen within the window stays IN_DNS; when that leaves none
   * IN_DNS, the one seen most recently is kept IN_DNS.  Nothing else
   * changes, and a slot that is not a front-end is never IN_DNS.
   */
  lemma CheckKitesDnsSpec(ts: seq<Tunnel>, addrs: seq<SockAddr>, now: int, ddnsMin: int)
    ensures var r := CheckKitesDns(ts, addrs, now, ddnsMin);
      var seen := SeenOrRenewed(ts, addrs, now, ddnsMin);
      forall k :: 0 <= k < |ts| ==>
        r[k].conn.status - {FeInDns} == ts[k].conn.status - {FeInDns} &&
        r[k] == ts[k].(conn := r[k].conn, lastDdnsup := r[k].lastDdnsup) &&
        r[k].conn == ts[k].conn.(status := r[k].conn.status) &&
        (ResolvedBy(ts[k], addrs, |addrs|) ==> r[k].lastDdnsup == now && FeInDns in r[k].conn.status) &&
        (!ResolvedBy(ts[k], addrs, |addrs|) ==> r[k].lastDdnsup == ts[k].lastDdnsup) &&
        (FeInDns in r[k].conn.status <==>
           IsFrontend(ts[k]) &&
           (ResolvedBy(ts[k], addrs, |addrs|) || seen[k].lastDdnsup > now - ddnsMin ||
            (!AnyInDns(seen) && MostRecent(Matches(ts, addrs, now)) == Some(k))))
  {
    var cleared := ClearInDns(ts);
    var matched := MatchAnswers(cleared, addrs, now);
    var seen := SeenOrRenewed(ts, addrs, now, ddnsMin);
    forall k | 0 <= k < |ts|
      ensures ResolvedBy(cleared[k], addrs, |addrs|) <==> ResolvedBy(ts[k], addrs, |addrs|)
      ensures IsFrontend(seen[k]) == IsFrontend(ts[k])
    {
      if ResolvedBy(ts[k], addrs, |addrs|) {
        var m :| 0 <= m < |addrs| && Resolves(ts[k], addrs[m]);
        assert Resolves(cleared[k], addrs[m]);
      }
      if ResolvedBy(cleared[k], addrs, |addrs|) {
        var m :| 0 <= m < |addrs| && Resolves(cleared[k], addrs[m]);
        assert Resolves(ts[k], addrs[m]);
      }
    }
    if !AnyInDns(seen) && MostRecent(matched).Some? {
      MostRecentSpec(matched);
    }
  }

  /* ------------------------------------------------------------------ */
  /* pkb_update_dns                                                      */
  /* ------------------------------------------------------------------ */

  /** The address list an update sends holds at most this many bytes. */
  const AddressListLimit: int := 1000

  /** A live, wanted front-end: its address belongs in the update. */
  predicate Publishable(t: Tunnel)
  {
    IsFrontend(t) && t.conn.sockfd >= 0 && FeWanted in t.conn.status
  }

  /** The comma-separated address list from slot j on, `listed` the slots
      whose address made it in; an address that would not fit is skipped,
      as is one that has no text form. */
  function AddressList(ts: seq<Tunnel>, texts: seq<Option<string>>, j: nat, list: string, listed: seq<nat>): (r: (string, seq<nat>))
    requires j <= |ts| == |texts|
    decreases |ts| - j
  {
    if j == |ts| then (list, listed)
    else if Publishable(ts[j]) && texts[j].Some? && |texts[j].value| < AddressListLimit - |list| then
      AddressList(ts, texts, j + 1, list + (if list == "" then "" else ",") + texts[j].value, listed + [j])
    else AddressList(ts, texts, j + 1, list, listed)
  }

  lemma {:induction false} AddressListSpec(ts: seq<Tunnel>, texts: seq<Option<string>>, j: nat, list: string, listed: seq<nat>)
    requires j <= |ts| == |texts| && |list| <= AddressListLimit
    requires forall n :: 0 <= n < |listed| ==> listed[n] < j && Publishable(ts[listed[n]])
    ensures var (l, ls) := AddressList(ts, texts, j, list, listed);
      |list| <= |l| <= AddressListLimit && |listed| <= |ls| && ls[..|listed|] == listed &&
      (forall n :: 0 <= n < |ls| ==> ls[n] < |ts| && Publishable(ts[ls[n]])) &&
      (|ls| == |listed| ==> l == list)
    decreases |ts| - j
  {
    if j < |ts| {
      if Publishable(ts[j]) && texts[j].Some? && |texts[j].value| < AddressListLimit - |list| {
        AddressListSpec(ts, texts, j + 1, list + (if list == "" then "" else ",") + texts[j].value, listed + [j]);
        var (l, ls) := AddressList(ts, texts, j + 1, list + (if list == "" then "" else ",") + texts[j].value, listed + [j]);
        assert ls[..|listed|] == (ls[..|listed| + 1])[..|listed|];
      } else {
        AddressListSpec(ts, texts, j + 1, list, listed);
      }
    }
  }

  /** One vote for an update: a wanted live front-end not yet in DNS (or any
      wanted one when an update is forced), or an unwanted live one that is. */
  function Stale(t: Tunnel, force: bool): nat
  {
    if !(IsFrontend(t) && t.conn.sockfd >= 0) then 0
    else if FeWanted in t.conn.status then (if FeInDns !in t.conn.status || force then 1 else 0)
    else if FeInDns in t.conn.status then 1 else 0
  }

  function StaleCount(ts: seq<Tunnel>, force: bool): nat
  {
    if ts == [] then 0 else Stale(ts[0], force) + StaleCount(ts[1..], force)
  }

  lemma {:induction false} StaleCountZero(ts: seq<Tunnel>, force: bool)
    ensures StaleCount(ts, force) == 0 <==> forall k :: 0 <= k < |ts| ==> Stale(ts[k], force) == 0
  {
    if ts != [] {
      StaleCountZero(ts[1..], force);
      assert forall k :: 1 <= k < |ts| ==> ts[k] == ts[1..][k - 1];
    }
  }

  /** The body of the server's reply: what follows the HTTP header. */
  function ReplyBody(reply: string): string
  {
    match SkipHttpHeader(|reply|, reply)
    case None => ""
    case Some(p) => if p <= |reply| then reply[p..] else ""
  }

  /** The server accepted the update: a reply whose body starts with
      "nochg" or "good", ignoring case. */
  predicate Accepted(reply: string)
  {
    |reply| >= 1 &&
    (StartsWithIgnoreCase(ReplyBody(reply), "nochg") || StartsWithIgnoreCase(ReplyBody(reply), "good"))
  }

  /** Every listed front-end is marked seen in DNS now. */
  function MarkListed(ts: seq<Tunnel>, listed: seq<nat>, now: int): (r: seq<Tunnel>)
    ensures |r| == |ts|
  {
    seq(|ts|, k requires 0 <= k < |ts| => if k in listed then SeenInDns(ts[k], now) else ts[k])
  }

  /** What an update accumulates. */
  datatype DnsUpdate = DnsUpdate(tunnels: seq<Tunnel>, status: PkStatus, lastDnsUpdate: int, failures: int)

  /** The pass over the kites from kite i: each kite with a protocol sends
      one update; an accepted one marks the listed front-ends. */
  function KitePass(kites: seq<Kite>, replies: seq<string>, i: nat, d: DnsUpdate, listed: seq<nat>, now: int): (r: DnsUpdate)
    requires i <= |kites| == |replies|
    ensures |r.tunnels| == |d.tunnels|
    decreases |kites| - i
  {
    if i == |kites| then d
    else if kites[i].protocol == "" then KitePass(kites, replies, i + 1, d, listed, now)
    else if Accepted(replies[i]) then
      KitePass(kites, replies, i + 1, d.(status := DynDns, tunnels := MarkListed(d.tunnels, listed, now)), listed, now)
    else KitePass(kites, replies, i + 1, d.(status := DynDns, failures := d.failures + 1), listed, now)
  }

  /** pkb_update_dns: `texts[j]` is the text form of front-end j's address
      and `replies[i]` the update server's reply for kite i ("" for none). */
  function UpdateDns(ts: seq<Tunnel>, kites: seq<Kite>, status: PkStatus, lastDnsUpdate: int, now: int,
                     ddnsMin: int, force: bool, texts: seq<Option<string>>, replies: seq<string>): (r: DnsUpdate)
    requires |texts| == |ts| && |replies| == |kites|
    ensures |r.tunnels| == |ts|
  {
    var same := DnsUpdate(ts, status, lastDnsUpdate, 0);
    if now < lastDnsUpdate + ddnsMin then same
    else
      var (list, listed) := AddressList(ts, texts, 0, "", []);
      if StaleCount(ts, force) == 0 || list == "" then same
      else KitePass(kites, replies, 0, same.(lastDnsUpdate := now), listed, now)
  }

  /** An update that is due, with a stale front-end and a non-empty
      address list, is sent for every kite. */
  lemma UpdateDnsSends(ts: seq<Tunnel>, kites: seq<Kite>, status: PkStatus, lastDnsUpdate: int, now: int,
                       ddnsMin: int, force: bool, texts: seq<Option<string>>, replies: seq<string>)
    requires |texts| == |ts| && |replies| == |kites|
    requires now >= lastDnsUpdate + ddnsMin && StaleCount(ts, force) != 0
    requires AddressList(ts, texts, 0, "", []).0 != ""
    ensures UpdateDns(ts, kites, status, lastDnsUpdate, now, ddnsMin, force, texts, replies) ==
            KitePass(kites, replies, 0, DnsUpdate(ts, status, now, 0), AddressList(ts, texts, 0, "", []).1, now)
  {
  }

  /** The kites with a protocol whose update was not accepted, from kite i. */
  function Rejections(kites: seq<Kite>, replies: seq<string>, i: nat): nat
    requires i <= |kites| == |replies|
    decreases |kites| - i
  {
    if i == |kites| then 0
    else (if kites[i].protocol != "" && !Accepted(replies[i]) then 1 else 0) + Rejections(kites, replies, i + 1)
  }

  predicate SomeAccepted(kites: seq<Kite>, replies: seq<string>, i: nat)
    requires i <= |kites| == |replies|
  {
    exists k :: i <= k < |kites| && kites[k].protocol != "" && Accepted(replies[k])
  }

  predicate SomeKite(kites: seq<Kite>, i: nat)
    requires i <= |kites|
  {
    exists k :: i <= k < |kites| && kites[k].protocol != ""
  }

  lemma {:induction false} KitePassSpec(kites: seq<Kite>, replies: seq<string>, i: nat, d: DnsUpdate, listed: seq<nat>, now: int)
    requires i <= |kites| == |replies|
    ensures var r := KitePass(kites, replies, i, d, listed, now);
      r.failures == d.failures + Rejections(kites, replies, i) &&
      r.lastDnsUpdate == d.lastDnsUpdate &&
      r.status == (if SomeKite(kites, i) then DynDns else d.status) &&
      r.tunnels == (if SomeAccepted(kites, replies, i) then MarkListed(d.tunnels, listed, now) else d.tunnels)
    decreases |kites| - i
  {
    if i < |kites| {
      var d' := if kites[i].protocol == "" then d
                else if Accepted(replies[i]) then d.(status := DynDns, tunnels := MarkListed(d.tunnels, listed, now))
                else d.(status := DynDns, failures := d.failures + 1);
      KitePassSpec(kites, replies, i + 1, d', listed, now);
      if SomeAccepted(kites, replies, i + 1) && kites[i].protocol != "" && Accepted(replies[i]) {
        MarkListedTwice(d.tunnels, listed, now);
      }
      if SomeKite(kites, i + 1) {
        var k :| i + 1 <= k < |kites| && kites[k].protocol != "";
        assert SomeKite(kites, i);
      }
      if SomeAccepted(kites, replies, i + 1) {
        var k :| i + 1 <= k < |kites| && kites[k].protocol != "" && Accepted(replies[k]);
        assert SomeAccepted(kites, replies, i);
      }
    }
  }

  lemma MarkListedTwice(ts: seq<Tunnel>, listed: seq<nat>, now: int)
    ensures MarkListed(MarkListed(ts, listed, now), listed, now) == MarkListed(ts, listed, now)
  {
  }

  /** Inside the minimum interval nothing is sent and nothing changes. */
  lemma UpdateDnsGated(ts: seq<Tunnel>, kites: seq<Kite>, status: PkStatus, lastDnsUpdate: int, now: int,
                       ddnsMin: int, force: bool, texts: seq<Option<string>>, replies: seq<string>)
    requires |texts| == |ts| && |replies| == |kites|
    requires now < lastDnsUpdate + ddnsMin ||
             forall k :: 0 <= k < |ts| ==> Stale(ts[k], force) == 0
    ensures UpdateDns(ts, kites, status, lastDnsUpdate, now, ddnsMin, force, texts, replies) ==
            DnsUpdate(ts, status, lastDnsUpdate, 0)
  {
    StaleCountZero(ts, force);
  }

  /**
   * Once an update is due and some front-end is stale, the result is the
   * number of kites whose update failed, the manager is in DYNDNS if any
   * kite was sent, the update time is now, and if any kite was accepted
   * exactly the listed front-ends — live, wanted front-ends whose
   * addresses fit in a list of at most 1000 bytes — are marked seen in DNS.
   */
  lemma UpdateDnsSpec(ts: seq<Tunnel>, kites: seq<Kite>, status: PkStatus, lastDnsUpdate: int, now: int,
                      ddnsMin: int, force: bool, texts: seq<Option<string>>, replies: seq<string>)
    requires |texts| == |ts| && |replies| == |kites|
    requires now >= lastDnsUpdate + ddnsMin
    requires exists k :: 0 <= k < |ts| && Stale(ts[k], force) != 0
    ensures var (list, listed) := AddressList(ts, texts, 0, "", []);
      var r := UpdateDns(ts, kites, status, lastDnsUpdate, now, ddnsMin, force, texts, replies);
      |list| <= AddressListLimit &&
      (forall n :: 0 <= n < |listed| ==> listed[n] < |ts| && Publishable(ts[listed[n]])) &&
      (list == "" ==> r == DnsUpdate(ts, status, lastDnsUpdate, 0)) &&
      (list != "" ==>
        r.failures == Rejections(kites, replies, 0) && r.lastDnsUpdate == now &&
        r.status == (if SomeKite(kites, 0) then DynDns else status) &&
        r.tunnels == (if SomeAccepted(kites, replies, 0) then MarkListed(ts, listed, now) else ts))
  {
    StaleCountZero(ts, force);
    AddressListSpec(ts, texts, 0, "", []);
    var (list, listed) := AddressList(ts, texts, 0, "", []);
    KitePassSpec(kites, replies, 0, DnsUpdate(ts, status, now, 0), listed, now);
  }

  /* ------------------------------------------------------------------ */
  /* pkb_check_tunnels                                                   */
  /* ------------------------------------------------------------------ */

  /** The manager status a tunnel check ends with. */
  function Verdict(problems: int, liveTunnels: int, status: PkStatus): (r: PkStatus)
  {
    if problems == 0 && liveTunnels > 0 then Flying
    else if status != Rejected then Problems
    else status
  }

  /** FLYING exactly when nothing went wrong and a tunnel is up; a
      rejection is never overwritten by PROBLEMS. */
  lemma VerdictSpec(problems: int, liveTunnels: int, status: PkStatus)
    ensures Verdict(problems, liveTunnels, status) == Flying <==> problems == 0 && liveTunnels > 0
    ensures Verdict(problems, liveTunnels, status) in {Flying, Problems, Rejected}
    ensures status == Rejected ==> Verdict(problems, liveTunnels, status) in {Flying, Rejected}
  {
  }
}
