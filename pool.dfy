/**
 * The backend-connection pool of libpagekite/pkmanager.c as pure functions
 * over the table: the session-id hash, the probe order, the lookup of
 * pkm_find_be_conn and the slot choices of pkm_alloc_be_conn.
 */
module Pool {
  import opened Wrappers
  import opened State
  import opened Io

  /** One character of a session id as the unsigned char the hash mixes in. */
  function CharByte(c: char): bv8
  {
    (c as int % 256) as bv8
  }

  /** One step of pkm_sid_shift: rotate left by 3 within 8 bits, then xor. */
  function ShiftStep(shift: bv8, c: char): bv8
  {
    ((shift << 3) | (shift >> 5)) ^ CharByte(c)
  }

  /** pkm_sid_shift: the 8-bit hash of a session id, 0 for the empty id. */
  function SidShift(sid: string): (shift: bv8)
  {
    if sid == [] then 0 else ShiftStep(SidShift(sid[..|sid| - 1]), sid[|sid| - 1])
  }

  /** The shift step is undone by xor-ing the character back and rotating
      right: the last character and the previous hash give the hash, and
      the hash and the last character give back the previous hash. */
  lemma ShiftStepInvertible(shift: bv8, c: char)
    ensures var x := ShiftStep(shift, c) ^ CharByte(c); (x >> 3) | (x << 5) == shift
  {
  }

  /** Two ids that differ only in their last byte never share a hash. */
  lemma SidShiftSeparatesLastByte(sid: string, a: char, b: char)
    requires CharByte(a) != CharByte(b)
    ensures SidShift(sid + [a]) != SidShift(sid + [b])
  {
    assert (sid + [a])[..|sid|] == sid && (sid + [b])[..|sid|] == sid;
  }

  /** The slot visited at step i of a probe that starts at `shift`. */
  function ProbeSlot(i: nat, shift: bv8, max: nat): (slot: nat)
    requires max > 0
    ensures slot < max
  {
    (i + shift as nat) % max
  }

  /** The step at which a probe reaches `slot`. */
  function ProbeStep(slot: nat, shift: bv8, max: nat): (i: nat)
    requires max > 0 && slot < max
    ensures i < max && ProbeSlot(i, shift, max) == slot
  {
    var i := (slot - shift as nat) % max;
    assert (i + shift as nat) % max == slot by {
      ModAddBack(slot, shift as nat, max);
    }
    i
  }

  lemma ModAddBack(slot: nat, k: nat, max: nat)
    requires max > 0 && slot < max
    ensures ((slot - k) % max + k) % max == slot
  {
    var q := (slot - k) / max;
    assert slot - k == q * max + (slot - k) % max;
    assert (slot - k) % max + k == (-q) * max + slot;
    ModUnique((slot - k) % max + k, max, -q, slot);
  }

  /** The remainder is the r of any decomposition x == q * max + r. */
  lemma ModUnique(x: int, max: int, q: int, r: int)
    requires max > 0 && 0 <= r < max && x == q * max + r
    ensures x % max == r
  {
    var q' := x / max;
    var r' := x % max;
    assert x == q' * max + r';
    assert (q - q') * max == r' - r;
    if q > q' {
      MulAtLeast(q - q', max);
    } else if q < q' {
      MulAtLeast(q' - q, max);
    }
  }

  lemma {:induction false} MulAtLeast(d: int, m: int)
    requires d >= 1 && m > 0
    ensures d * m >= m
    decreases d
  {
    if d > 1 {
      MulAtLeast(d - 1, m);
      assert d * m == (d - 1) * m + m;
    }
  }

  /* ------------------------------------------------------------------ */
  /* pkm_find_be_conn                                                    */
  /* ------------------------------------------------------------------ */

  /** The slot holds the live stream `sid` of tunnel `fe`. */
  predicate Holds(b: BeConn, fe: Option<nat>, sid: string)
  {
    Allocated in b.conn.status && b.tunnel == fe && b.sid == sid
  }

  /** The probe of pkm_find_be_conn from step i on. */
  function FindFrom(bes: seq<BeConn>, fe: Option<nat>, sid: string, i: nat): (r: Option<nat>)
    requires |bes| > 0 && i <= |bes|
    ensures r.Some? ==> r.value < |bes| && Holds(bes[r.value], fe, sid)
    ensures r.None? ==> forall k :: i <= k < |bes| ==> !Holds(bes[ProbeSlot(k, SidShift(sid), |bes|)], fe, sid)
    decreases |bes| - i
  {
    if i == |bes| then None
    else
      var slot := ProbeSlot(i, SidShift(sid), |bes|);
      if Holds(bes[slot], fe, sid) then Some(slot) else FindFrom(bes, fe, sid, i + 1)
  }

  /** pkm_find_be_conn: the first slot in probe order holding the stream; an
      empty table holds nothing. */
  function FindBeConn(bes: seq<BeConn>, fe: Option<nat>, sid: string): (r: Option<nat>)
  {
    if |bes| == 0 then None else FindFrom(bes, fe, sid, 0)
  }

  /** Lookup finds a stream exactly when some slot holds it: the probe
      visits every slot. */
  lemma FindBeConnSpec(bes: seq<BeConn>, fe: Option<nat>, sid: string)
    ensures var r := FindBeConn(bes, fe, sid);
      (r.Some? ==> r.value < |bes| && Holds(bes[r.value], fe, sid)) &&
      (r.None? <==> forall j :: 0 <= j < |bes| ==> !Holds(bes[j], fe, sid))
  {
    if |bes| > 0 && FindBeConn(bes, fe, sid).None? {
      forall j | 0 <= j < |bes|
        ensures !Holds(bes[j], fe, sid)
      {
        var i := ProbeStep(j, SidShift(sid), |bes|);
      }
    }
  }

  /** Freeing a found stream hides it from lookup unless another slot holds
      the same stream. */
  lemma FreeHidesStream(bes: seq<BeConn>, fe: Option<nat>, sid: string, j: nat)
    requires j < |bes|
    ensures var freed := bes[j := bes[j].(conn := bes[j].conn.(status := {}))];
      FindBeConn(freed, fe, sid).None? <==> forall k :: 0 <= k < |bes| && k != j ==> !Holds(bes[k], fe, sid)
  {
    var freed := bes[j := bes[j].(conn := bes[j].conn.(status := {}))];
    FindBeConnSpec(freed, fe, sid);
    assert !Holds(freed[j], fe, sid);
    assert forall k :: 0 <= k < |bes| && k != j ==> freed[k] == bes[k];
  }

  /* ------------------------------------------------------------------ */
  /* The slot choices of pkm_alloc_be_conn                               */
  /* ------------------------------------------------------------------ */

  predicate IsFreeSlot(b: BeConn)
  {
    Allocated !in b.conn.status
  }

  /** The first free slot in the probe order of `shift`, from step i on. */
  function FirstFreeFrom(bes: seq<BeConn>, shift: bv8, i: nat): (r: Option<nat>)
    requires |bes| > 0 && i <= |bes|
    ensures r.Some? ==> r.value < |bes| && IsFreeSlot(bes[r.value])
    ensures r.None? ==> forall k :: i <= k < |bes| ==> !IsFreeSlot(bes[ProbeSlot(k, shift, |bes|)])
    decreases |bes| - i
  {
    if i == |bes| then None
    else
      var slot := ProbeSlot(i, shift, |bes|);
      if IsFreeSlot(bes[slot]) then Some(slot) else FirstFreeFrom(bes, shift, i + 1)
  }

  /** Allocation finds no free slot exactly when every slot is taken. */
  lemma FirstFreeSpec(bes: seq<BeConn>, shift: bv8)
    requires |bes| > 0
    ensures FirstFreeFrom(bes, shift, 0).None? <==> forall j :: 0 <= j < |bes| ==> !IsFreeSlot(bes[j])
  {
    if FirstFreeFrom(bes, shift, 0).None? {
      forall j | 0 <= j < |bes|
        ensures !IsFreeSlot(bes[j])
      {
        var i := ProbeStep(j, shift, |bes|);
      }
    }
  }

  /**
   * The eviction candidate of pkm_alloc_be_conn from probe step i on, given
   * the oldest activity seen so far (`maxAge`, starting at now) and the slot
   * that had it: a slot whose activity is at or below the oldest seen takes
   * its place, so among equally old slots the last one probed wins.
   */
  function OldestFrom(bes: seq<BeConn>, shift: bv8, i: nat, maxAge: int, oldest: Option<nat>): (r: Option<nat>)
    requires |bes| > 0 && i <= |bes|
    requires oldest.Some? ==> oldest.value < |bes| && bes[oldest.value].conn.activity == maxAge
    ensures r.Some? ==> r.value < |bes|
    decreases |bes| - i
  {
    if i == |bes| then oldest
    else
      var slot := ProbeSlot(i, shift, |bes|);
      if bes[slot].conn.activity <= maxAge then OldestFrom(bes, shift, i + 1, bes[slot].conn.activity, Some(slot))
      else OldestFrom(bes, shift, i + 1, maxAge, oldest)
  }

  /** The oldest slot whose activity is not in the future, if any. */
  function Oldest(bes: seq<BeConn>, shift: bv8, now: int): (r: Option<nat>)
    requires |bes| > 0
    ensures r.Some? ==> r.value < |bes|
  {
    OldestFrom(bes, shift, 0, now, None)
  }

  lemma {:induction false} OldestFromSpec(bes: seq<BeConn>, shift: bv8, i: nat, maxAge: int, oldest: Option<nat>, now: int)
    requires |bes| > 0 && i <= |bes|
    requires oldest.Some? ==> oldest.value < |bes| && bes[oldest.value].conn.activity == maxAge
    requires maxAge <= now && (oldest.None? ==> maxAge == now)
    requires forall k :: 0 <= k < i ==> bes[ProbeSlot(k, shift, |bes|)].conn.activity >= maxAge || bes[ProbeSlot(k, shift, |bes|)].conn.activity > now
    requires oldest.None? ==> forall k :: 0 <= k < i ==> bes[ProbeSlot(k, shift, |bes|)].conn.activity > now
    ensures var r := OldestFrom(bes, shift, i, maxAge, oldest);
      (r.Some? ==>
         bes[r.value].conn.activity <= now &&
         forall k :: 0 <= k < |bes| ==> bes[ProbeSlot(k, shift, |bes|)].conn.activity >= bes[r.value].conn.activity ||
                                        bes[ProbeSlot(k, shift, |bes|)].conn.activity > now) &&
      (r.None? ==> forall k :: 0 <= k < |bes| ==> bes[ProbeSlot(k, shift, |bes|)].conn.activity > now)
    decreases |bes| - i
  {
    if i < |bes| {
      var slot := ProbeSlot(i, shift, |bes|);
      if bes[slot].conn.activity <= maxAge {
        OldestFromSpec(bes, shift, i + 1, bes[slot].conn.activity, Some(slot), now);
      } else {
        OldestFromSpec(bes, shift, i + 1, maxAge, oldest, now);
      }
    }
  }

  /** The eviction candidate is a slot of least activity among those not in
      the future; there is none only when every activity is in the future. */
  lemma OldestSpec(bes: seq<BeConn>, shift: bv8, now: int)
    requires |bes| > 0
    ensures var r := Oldest(bes, shift, now);
      (r.Some? ==>
         bes[r.value].conn.activity <= now &&
         forall j :: 0 <= j < |bes| ==> bes[j].conn.activity >= bes[r.value].conn.activity || bes[j].conn.activity > now) &&
      (r.None? <==> forall j :: 0 <= j < |bes| ==> bes[j].conn.activity > now)
  {
    OldestFromSpec(bes, shift, 0, now, None, now);
    var r := Oldest(bes, shift, now);
    forall j | 0 <= j < |bes|
      ensures r.Some? ==> bes[j].conn.activity >= bes[r.value].conn.activity || bes[j].conn.activity > now
      ensures r.None? ==> bes[j].conn.activity > now
    {
      var i := ProbeStep(j, shift, |bes|);
    }
    if r.Some? {
      assert bes[r.value].conn.activity <= now;
    }
  }

  /** pkm_alloc_be_conn evicts the candidate only when eviction is enabled
      and the candidate has been idle for longer than the configured time. */
  predicate Evicting(evictionIdleS: int, now: int, activity: int)
  {
    evictionIdleS != 0 && evictionIdleS < now - activity
  }

  /** The slot as pkm_alloc_be_conn hands it out: reset to ALLOCATED,
      owned by tunnel `fe` and named `sid`. */
  function Claim(b: BeConn, fe: Option<nat>, sid: string, now: int, window: int): (r: BeConn)
    ensures Holds(r, fe, sid)
  {
    BeConn(ResetConn(b.conn, {Allocated}, now, window), fe, sid)
  }

  /** The table after pkm_alloc_be_conn, and the slot it returned. */
  datatype Alloc = Alloc(streams: Streams, slot: Option<nat>)

  /**
   * pkm_alloc_be_conn: the first free slot in probe order is claimed; with
   * none free, the eviction candidate is closed in both directions, run
   * through update_io on behalf of the requesting tunnel, and claimed, if
   * it has idled long enough; otherwise nothing changes and no slot is
   * returned.
   */
  function AllocResult(s: Streams, fe: Option<nat>, sid: string, now: int, evictionIdleS: int, window: int): (r: Alloc)
    requires |s.bes| > 0
    ensures |r.streams.bes| == |s.bes|
    ensures r.slot.Some? ==> r.slot.value < |s.bes|
  {
    var shift := SidShift(sid);
    match FirstFreeFrom(s.bes, shift, 0)
    case Some(j) => Alloc(s.(bes := s.bes[j := Claim(s.bes[j], fe, sid, now, window)]), Some(j))
    case None =>
      match Oldest(s.bes, shift, now)
      case None => Alloc(s, None)
      case Some(j) =>
        if Evicting(evictionIdleS, now, s.bes[j].conn.activity) then
          var closing := s.(bes := s.bes[j := s.bes[j].(conn := s.bes[j].conn.(status := s.bes[j].conn.status + {ClsWrite, ClsRead}))]);
          var after := BeIo(closing, fe, j);
          Alloc(after.(bes := after.bes[j := Claim(after.bes[j], fe, sid, now, window)]), Some(j))
        else Alloc(s, None)
  }

  /** With a free slot, allocation claims the first free slot in probe order
      and changes nothing else. */
  lemma AllocClaimsFreeSlot(s: Streams, fe: Option<nat>, sid: string, now: int, evictionIdleS: int, window: int, free: nat)
    requires free < |s.bes| && IsFreeSlot(s.bes[free])
    ensures var r := AllocResult(s, fe, sid, now, evictionIdleS, window);
      r.slot.Some? && IsFreeSlot(s.bes[r.slot.value]) &&
      (exists n :: 0 <= n < |s.bes| && ProbeSlot(n, SidShift(sid), |s.bes|) == r.slot.value &&
         forall i :: 0 <= i < n ==> !IsFreeSlot(s.bes[ProbeSlot(i, SidShift(sid), |s.bes|)])) &&
      Holds(r.streams.bes[r.slot.value], fe, sid) &&
      r.streams.bes[r.slot.value].conn.status == {Allocated} &&
      r.streams.bes[r.slot.value].conn.activity == now &&
      r.streams.bes[r.slot.value].conn.readKb == 0 &&
      r.streams.bes[r.slot.value].conn.outBufferPos == 0 &&
      r.streams.liveStreams == s.liveStreams && r.streams.sent == s.sent &&
      forall k :: 0 <= k < |s.bes| && k != r.slot.value ==> r.streams.bes[k] == s.bes[k]
  {
    var shift := SidShift(sid);
    FirstFreeSpec(s.bes, shift);
    var j := FirstFreeFrom(s.bes, shift, 0).value;
    FirstFreeOrder(s.bes, shift, 0);
    var r := AllocResult(s, fe, sid, now, evictionIdleS, window);
    assert r == Alloc(s.(bes := s.bes[j := Claim(s.bes[j], fe, sid, now, window)]), Some(j));
  }

  lemma {:induction false} FirstFreeOrder(bes: seq<BeConn>, shift: bv8, i: nat)
    requires |bes| > 0 && i <= |bes|
    ensures var r := FirstFreeFrom(bes, shift, i);
      r.Some? ==> exists n :: i <= n < |bes| && ProbeSlot(n, shift, |bes|) == r.value &&
                    forall m :: i <= m < n ==> !IsFreeSlot(bes[ProbeSlot(m, shift, |bes|)])
    decreases |bes| - i
  {
    if i < |bes| && !IsFreeSlot(bes[ProbeSlot(i, shift, |bes|)]) {
      FirstFreeOrder(bes, shift, i + 1);
    }
  }

  /** A full table whose eviction candidate has not idled long enough (or
      that has none) is left alone and no slot is returned. */
  lemma AllocFullNoEviction(s: Streams, fe: Option<nat>, sid: string, now: int, evictionIdleS: int, window: int)
    requires |s.bes| > 0
    requires forall j :: 0 <= j < |s.bes| ==> !IsFreeSlot(s.bes[j])
    requires evictionIdleS == 0 || forall j :: 0 <= j < |s.bes| ==> now - s.bes[j].conn.activity <= evictionIdleS
    ensures AllocResult(s, fe, sid, now, evictionIdleS, window) == Alloc(s, None)
  {
    FirstFreeSpec(s.bes, SidShift(sid));
  }

  /** A full table gives up its least recently active slot, provided that
      slot has idled for longer than the eviction time. */
  lemma AllocEvictsOldest(s: Streams, fe: Option<nat>, sid: string, now: int, evictionIdleS: int, window: int)
    requires |s.bes| > 0
    requires forall j :: 0 <= j < |s.bes| ==> !IsFreeSlot(s.bes[j])
    ensures var r := AllocResult(s, fe, sid, now, evictionIdleS, window);
      r.slot.Some? ==>
        var j := r.slot.value;
        Evicting(evictionIdleS, now, s.bes[j].conn.activity) &&
        (forall k :: 0 <= k < |s.bes| ==> s.bes[k].conn.activity >= s.bes[j].conn.activity || s.bes[k].conn.activity > now) &&
        Holds(r.streams.bes[j], fe, sid)
  {
    FirstFreeSpec(s.bes, SidShift(sid));
    OldestSpec(s.bes, SidShift(sid), now);
  }

  /** The EOF update_io announces for a stream closed in both directions:
      each direction the far end has not yet been told about. */
  function EvictionEof(status: Status): set<EofKind>
  {
    (if EndRead !in status then {EofRead} else {}) + (if EndWrite !in status then {EofWrite} else {})
  }

  /**
   * A full table whose eviction candidate has idled for longer than the
   * eviction time gives that slot to the new stream. The evicted stream
   * is closed both ways: when it still had a socket, the EOFs it owed go
   * out on the requesting tunnel and it leaves the live-stream count.
   * Every other slot changes at most in its TNL_BLOCKED bit.
   */
  lemma AllocEvictsDue(s: Streams, fe: Option<nat>, sid: string, now: int, evictionIdleS: int, window: int)
    requires |s.bes| > 0
    requires forall j :: 0 <= j < |s.bes| ==> !IsFreeSlot(s.bes[j])
    requires Oldest(s.bes, SidShift(sid), now).Some?
    requires Evicting(evictionIdleS, now, s.bes[Oldest(s.bes, SidShift(sid), now).value].conn.activity)
    ensures var r := AllocResult(s, fe, sid, now, evictionIdleS, window);
      var j := Oldest(s.bes, SidShift(sid), now).value;
      var old_ := s.bes[j];
      r.slot == Some(j) &&
      Holds(r.streams.bes[j], fe, sid) && r.streams.bes[j].conn.status == {Allocated} &&
      r.streams.bes[j].conn.activity == now && r.streams.bes[j].conn.readKb == 0 &&
      (old_.conn.sockfd > 0 ==>
         r.streams.liveStreams == s.liveStreams - 1 &&
         r.streams.sent == s.sent + (if EvictionEof(old_.conn.status) != {}
                                     then [EofSent(fe, old_.sid, EvictionEof(old_.conn.status))] else [])) &&
      (old_.conn.sockfd <= 0 ==> r.streams.liveStreams == s.liveStreams && r.streams.sent == s.sent) &&
      forall k :: 0 <= k < |s.bes| && k != j ==>
        r.streams.bes[k] == s.bes[k].(conn := s.bes[k].conn.(status := r.streams.bes[k].conn.status)) &&
        r.streams.bes[k].conn.status - {TnlBlocked} == s.bes[k].conn.status - {TnlBlocked}
  {
    var shift := SidShift(sid);
    FirstFreeSpec(s.bes, shift);
    var j := Oldest(s.bes, shift, now).value;
    var b := s.bes[j];
    var closing := s.(bes := s.bes[j := b.(conn := b.conn.(status := b.conn.status + {ClsWrite, ClsRead}))]);
    if b.conn.sockfd > 0 {
      var c0 := FlowControlConn(closing.bes[j].conn, DestOp(closing.bes[j].conn));
      IoStepReadHalf(c0, false);
      IoStepWriteHalf(c0, false);
      IoStepFlows(c0, false);
      var st := IoStepOf(c0, false);
      assert st.eof == EvictionEof(b.conn.status);
      BeIoSpec(closing, fe, j);
    }
    forall k | 0 <= k < |s.bes| && k != j
      ensures var r := AllocResult(s, fe, sid, now, evictionIdleS, window);
        r.streams.bes[k] == s.bes[k].(conn := s.bes[k].conn.(status := r.streams.bes[k].conn.status)) &&
        r.streams.bes[k].conn.status - {TnlBlocked} == s.bes[k].conn.status - {TnlBlocked}
    {
      BeIoFrame(closing, fe, j, k);
    }
  }

  /** After a successful allocation the stream can be looked up, and the
      slot found holds it. */
  lemma AllocThenFind(s: Streams, fe: Option<nat>, sid: string, now: int, evictionIdleS: int, window: int)
    requires |s.bes| > 0
    ensures var r := AllocResult(s, fe, sid, now, evictionIdleS, window);
      r.slot.Some? ==>
        var f := FindBeConn(r.streams.bes, fe, sid);
        f.Some? && Holds(r.streams.bes[f.value], fe, sid) && r.streams.bes[f.value].sid == sid
  {
    var r := AllocResult(s, fe, sid, now, evictionIdleS, window);
    if r.slot.Some? {
      assert Holds(r.streams.bes[r.slot.value], fe, sid);
      FindBeConnSpec(r.streams.bes, fe, sid);
    }
  }
}
