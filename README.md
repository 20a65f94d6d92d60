# libpagekite tunnel manager: a verified Dafny model

libpagekite connects a local server to public PageKite front-ends through
tunnels. This project models the bookkeeping core of that library: the
tables the tunnel manager keeps, and the decisions its blocking helper thread
makes over them.

- **Stream pool.** Backend streams live in a fixed slot array. Slots are
  probed from an 8-bit hash of the stream id, and the idlest stream is
  evicted when the pool is full.
- **Kite and front-end tables.** New entries go into the first free slot.
  Kite lookup prefers an exact port match, then a port-agnostic entry.
  A duplicate front-end address is refused.
- **Connection status words.** The half-close state machine of
  `pkm_update_io` (`END_*`/`CLS_*` bits, EOF propagation, the remaining-flow
  count) and the `DST_BLOCKED`/`TNL_BLOCKED` flow-control bits.
- **Housekeeping.** Reconnect, disconnect and the tick. The tick backs off
  exponentially, pings idle tunnels and shuts dead ones.
- **Job pile.** The blocking thread reads its work from a bounded job pile.
- **Front-end selector.**
  - Transient flags are cleared.
  - The N lowest-ranked front-ends are marked fast, the `WANTED` rule is
    applied, and two fallbacks follow.
  - DNS answers are matched to front-ends, with the "most recently seen"
    fallback.
  - Dynamic-DNS updates are gated and counted.
  - `check_tunnels` gives its final status, and `run_blocker` dispatches jobs.
- **Helpers from `utils.c`.** `zero_first_crlf`, `skip_http_header`,
  `addrcmp`, `digest_to_hex`, and the URL split at the start of `http_get`.

Everything outside the program becomes a parameter: wall-clock time (`now`),
DNS answers, connect results, the text form of addresses and the
update-server replies. In `Blocker.Environment` they come in as one value.

**How state is modelled.**
- The manager is a class, `Manager.PkManager`. It holds the kite, tunnel and
  stream tables as arrays, and the manager-wide counters of `pk_state` as
  fields.
- The job pile is a class over an array, `JobPile.Pile`.
- Each operation that changes the tables in place is a method.
- Each method is proved equal to a function of the old state: `Io`, `Pool`,
  `Tables`, `Housekeeping` and `Selector` define those functions.
- Lemmas about those functions state what the source promises.

A status word is a `set<Flag>`. `CONN_STATUS_UNKNOWN` is the empty set.

**Behaviour of the source worth noting:**
- **Connect failures.** An `ERR_CONNECT_REJECTED` failure sets `REJECTED`
  and the manager status `REJECTED`. An `ERR_CONNECT_DUPLICATE` failure sets
  only `LAME`, and the attempt is not counted as tried.
- **`choose_tunnels` fallbacks.** They run only when no front-end is
  `WANTED` *or* `IN_DNS` (`libpagekite/pkblocker.c:171-173`). A table whose
  only healthy front-end is `IN_DNS` but not wanted therefore ends with no
  front-end `WANTED`.
- **`disconnect_unused`.** It also skips tunnels without a host name and
  without a live socket.
- **Kite updates in `update_dns`.** An update is sent for every kite with a
  non-empty protocol. Whether a dynamic-DNS URL is configured is checked
  once, by `check_tunnels`.

## Model

| member | source | states |
|---|---|---|
| Utils.Compare | libpagekite/utils.c:197-204 | the memcmp of address bytes: -1, 0 or 1, and 0 exactly when the byte strings are equal |
| Utils.CompareAntisymmetric | libpagekite/utils.c:197-204 | swapping the operands of the byte comparison negates the result |
| Utils.ZeroFirstCrlf | libpagekite/utils.c:33-45 | returns 0 and changes nothing when no CR LF pair starts before length-1; otherwise returns i+2 for the first pair at i, and only data[i] and data[i+1] become NUL |
| Utils.ZeroFirstCrlfExamples | libpagekite/utils.c:372-380 | the self-test's cases: "\r\n\r\n" gives 2; "abcd\r\n\r\ndefghijklmnop" gives 6 and begins "abcd", NUL, NUL, "\r\n" afterwards |
| Utils.ScanHeaderFinds | libpagekite/utils.c:51-60 | the scan stops just after the first blank line (two line feeds separated only by carriage returns), or runs to length-2 when there is none |
| Utils.SkipHttpHeader | libpagekite/utils.c:47-62 | the body starts just after the first blank line found before index length-1; with no blank line it is the position length-2; for length <= 1 the source returns its empty literal (None) |
| Utils.SkipHttpHeaderExample | libpagekite/utils.c:382-383 | "abcd\r\nfoo\r\n\r\ndef" skips to "def" |
| Utils.AddrCmp | libpagekite/utils.c:191-208 | 3 if either address is NULL, 1 if the families differ, 2 for an unknown family, otherwise 0 exactly when the host addresses are equal (ports ignored) |
| Utils.AddrCmpSymmetric | libpagekite/utils.c:191-208 | equality of addresses is symmetric, and for a known family the order is antisymmetric |
| Utils.HexDigit | libpagekite/utils.c:284 | a hex digit is '0'-'9' or lower-case 'a'-'f' |
| Utils.UnhexHex | libpagekite/utils.c:276-289 | the hex text decodes back to the digest: encoding loses nothing |
| Utils.HexIsLowerCase | libpagekite/utils.c:284 | every character of the encoding is a lower-case hex digit |
| Utils.HexAt | libpagekite/utils.c:282-287 | digest byte m is written at positions 2m and 2m+1, high nibble first |
| Utils.DigestToHex | libpagekite/utils.c:276-289 | the first 41 characters of the output become the 40 hex characters of the 20-byte digest followed by NUL; nothing after them changes |
| Utils.SkipSlashes | libpagekite/utils.c:220 | the host starts at the first non-'/' character at or after index 7 |
| Utils.ScanUntil | libpagekite/utils.c:220-233 | the scan stops at the first stop character or at the end of the string |
| Utils.SplitUrlOverreads | libpagekite/utils.c:228-233 | "http://example.com" and "http://example.com:8080" send the path pointer one past the terminating NUL |
| Utils.SplitUrl | libpagekite/utils.c:218-233 | the host holds no '/' or ':', the port no '/', and a missing port is "443" when url[5] is 's' and "80" otherwise |
| Utils.SplitUrlJoins | libpagekite/utils.c:218-233 | the scheme prefix, host, ':' port and '/' path put back together give the URL again |
| Utils.SplitUrlAgrees | libpagekite/utils.c:218-233 | the intended split agrees with the as-written one on every URL that has a path, and the as-written one overreads exactly when there is no path |
| Io.EofBitsCrossed | libpagekite/pkmanager.c:520-537 | an 'R' sets END_WRITE, a 'W' sets END_READ, a token with neither (empty or NULL too) sets both; nothing else is ever set |
| Io.EofBitsExamples | libpagekite/pkmanager.c:520-537 | "R" gives END_WRITE, "w" gives END_READ, "rW", "" and NULL give both |
| Io.FlowControlConn | libpagekite/pkmanager.c:494-508 | DEST_BLOCKED sets DST_BLOCKED, DEST_UNBLOCKED clears it, any other operation changes nothing, and no other bit or field changes |
| Io.FlowTunnelSpec | libpagekite/pkmanager.c:468-492 | TNL_BLOCKED is set or cleared on exactly the streams of the given tunnel; other streams, other bits and other fields are unchanged |
| Io.IoStepReadHalf | libpagekite/pkmanager.c:350-380 | with CLS_READ or END_READ set both end up set, a read EOF is sent only if END_READ was not already set, and a tunnel also becomes write-closed; otherwise no read bit is added |
| Io.IoStepWriteHalf | libpagekite/pkmanager.c:382-397 | CLS_WRITE forces END_WRITE and an empty output buffer, and a write EOF is sent only if END_WRITE was not already set |
| Io.IoStepMonotone | libpagekite/pkmanager.c:350-418 | update_io only adds END/CLS bits, and changes nothing but the status word and the output-buffer position (which only drops to 0) |
| Io.IoStepFlows | libpagekite/pkmanager.c:350-418 | the remaining-flow count is one per direction not closed, and 0 exactly when both directions are closed |
| Io.IoStepOp | libpagekite/pkmanager.c:398-418 | the tunnel is reported blocked exactly when writing is open and output is pending or wanted |
| Io.IoStepEofOnce | libpagekite/pkmanager.c:350-397 | a second pass over the same connection sends no EOF: EOFs are sent once |
| Io.BeIoSpec | libpagekite/pkmanager.c:339-448 | on a stream with a live socket: when both flows end the slot is freed (UNKNOWN), its socket closed and live_streams decremented; otherwise the socket stays, no old bit but the blocked ones is lost, and DST_BLOCKED is set exactly when read_kb > sent_kb + send_window_kb |
| Io.BeIoFrame | libpagekite/pkmanager.c:398-491 | update_io on one stream changes other streams only in their TNL_BLOCKED bit, and only on the same tunnel |
| Io.BeIoOwnSlot | libpagekite/pkmanager.c:431-436 | a stream marked ended in both directions is shut down by update_io and stays on its tunnel |
| Io.EofSweepShutsDown | libpagekite/pkmanager.c:428-439 | when a tunnel goes down every stream on it is shut down and every other stream is untouched |
| Io.TunnelIoCloses | libpagekite/pkmanager.c:420-462 | a tunnel whose reading ends while END_READ and END_WRITE are not both set yet is reset to ALLOCATED with no socket and no requests, live_tunnels drops by one, the status becomes PROBLEMS, the next tick is the minimum when no tunnel is left, and all its streams are shut down |
| Io.TunnelIoClosesQuietly | libpagekite/pkmanager.c:420-462 | a tunnel with both END bits already set is reset the same way and leaves the live count, but no EOF is announced, no stream changes and only a timer tick is requested |
| Pool.ShiftStepInvertible | libpagekite/pkmanager.c:1080-1081 | one step of the sid hash (rotate left 3, xor the byte) can be undone |
| Pool.SidShiftSeparatesLastByte | libpagekite/pkmanager.c:1079-1083 | two sids that differ only in their last byte hash differently |
| Pool.ProbeSlot | libpagekite/pkmanager.c:1100-1107 | probe i addresses slot (i + shift) mod be_conn_max, always in the table |
| Pool.FindBeConnSpec | libpagekite/pkmanager.c:1147-1166 | find returns only an ALLOCATED slot with the same tunnel and sid, and returns NULL exactly when no slot holds that stream |
| Pool.FreeHidesStream | libpagekite/pkmanager.c:1142-1166 | after a slot is freed, find returns NULL exactly when no other slot holds the stream |
| Pool.FirstFreeSpec | libpagekite/pkmanager.c:1100-1107 | the probe finds no free slot exactly when every slot is ALLOCATED |
| Pool.FirstFreeOrder | libpagekite/pkmanager.c:1100-1102 | the slot found is the first free one in probe order |
| Pool.OldestSpec | libpagekite/pkmanager.c:1108-1111 | the eviction candidate has the least activity time not in the future, and there is none only when every activity time is in the future |
| Pool.Claim | libpagekite/pkmanager.c:1100-1136 | a claimed slot holds the stream: ALLOCATED, the requesting tunnel and the sid |
| Pool.AllocClaimsFreeSlot | libpagekite/pkmanager.c:1100-1107 | with a free slot, the first free slot in probe order is reset with status exactly ALLOCATED, the tunnel and sid, and no other slot or counter changes |
| Pool.AllocFullNoEviction | libpagekite/pkmanager.c:1116-1139 | a full pool whose candidate has not idled longer than conn_eviction_idle_s (or with eviction off) is left alone and NULL is returned |
| Pool.AllocEvictsOldest | libpagekite/pkmanager.c:1108-1135 | in a full pool only the idlest slot is reused, only when eviction is on and it has idled strictly longer than the limit, and it then holds the new stream |
| Pool.AllocEvictsDue | libpagekite/pkmanager.c:1108-1136 | conversely, in a full pool whose idlest slot has idled past an enabled limit, that slot is returned holding the new stream with status exactly ALLOCATED, activity now and nothing read; a live evicted stream has the EOFs it still owed sent on the requesting tunnel and leaves live_streams; every other slot changes at most in TNL_BLOCKED |
| Pool.AllocThenFind | libpagekite/pkmanager.c:1086-1166 | after a successful allocation, find returns a slot holding the stream with that sid |
| Tables.FindKiteFrom | libpagekite/pkmanager.c:944-956 | the scan returns the first exact-port kite, or else the last port-agnostic one, or else NULL |
| Tables.FindKite | libpagekite/pkmanager.c:931-957 | with an exact port match the first such kite is returned; otherwise the last matching kite with public_port <= 0, or NULL when there is none; protocol and domain compare without case |
| Tables.FirstFreeKite | libpagekite/pkmanager.c:972-977 | the first slot with an empty protocol, or none exactly when every slot is taken |
| Tables.DigitRun | libpagekite/pkmanager.c:992 | sscanf's digit run: the longest prefix of digits |
| Tables.DecimalValue | libpagekite/pkmanager.c:992 | the decimal text of n reads back as n |
| Tables.ScanDecimalReadsDecimal | libpagekite/pkmanager.c:992 | "%d" reads back any integer written in decimal and followed by a non-digit |
| Tables.ScanDigits | libpagekite/pkmanager.c:992 | "%d" reads a run of digits after an optional minus sign, ended by a non-digit, as its value, negated after the sign |
| Tables.IndexOf | libpagekite/pkmanager.c:990 | strchr: the first occurrence, or none exactly when the character is absent |
| Tables.StoredKite | libpagekite/pkmanager.c:982-993 | domains, secret and local port are stored as given; protocol and public port too unless the public port is 0 and the protocol holds a '-', in which case the stored protocol is shorter and holds no '-' |
| Tables.StoredKiteSplitsPort | libpagekite/pkmanager.c:989-993 | "proto-PORT" with public port 0 is stored as protocol "proto" and public port PORT |
| Tables.StoredKitePlain | libpagekite/pkmanager.c:1463-1464 | the self-test's kite is stored unchanged |
| Tables.FirstFreeTunnel | libpagekite/pkmanager.c:1048-1052 | the first slot with no address, or none exactly when every slot has one |
| Tables.AddFrontendChoice | libpagekite/pkmanager.c:1048-1060 | the address is refused exactly when a stored front-end has an equal address of nonzero length; otherwise ERR_NO_MORE_FRONTENDS exactly when every slot has an address; else a free slot is chosen |
| Tables.NewFrontend | libpagekite/pkmanager.c:1062-1069 | the claimed slot gets the address, host name and port, zero ddns time, error count, request count and priority, and status flags plus ALLOCATED |
| Tables.ZeroLengthNeverDuplicate | libpagekite/pkmanager.c:1048-1060 | an address of length 0 is never a duplicate: it goes into the first free slot or fails with ERR_NO_MORE_FRONTENDS |
| Housekeeping.RequestsFor | libpagekite/pkmanager.c:661-668 | a tunnel whose request count differs from kite_max gets kite_max UNKNOWN requests; otherwise nothing changes |
| Housekeeping.Disconnect | libpagekite/pkmanager.c:774-787 | the socket is closed, the connection reset, and the status becomes ALLOCATED plus the old FE_STATUS bits |
| Housekeeping.ReconnectOneSpec | libpagekite/pkmanager.c:658-736 | only tunnels that are WANTED or IN_DNS with an UNKNOWN request are retried; a success keeps the FE bits, zeroes error_count and adds a live tunnel; a failure keeps the FE bits, adds REJECTED or LAME by error, clears the requests and raises error_count saturating at 999; other tunnels are unchanged |
| Housekeeping.ReconnectCountsProblems | libpagekite/pkmanager.c:648-740 | reconnect_all returns tried minus connected, which is the count of failed attempts other than duplicates, and leaves unwanted tunnels untouched |
| Housekeeping.DisconnectUnusedSpec | libpagekite/pkmanager.c:757-788 | only a tunnel with a host name, a live socket, neither WANTED nor IN_DNS and no stream with a live socket is closed, keeping its FE bits; every other tunnel is unchanged |
| Housekeeping.DisconnectSparesBusy | libpagekite/pkmanager.c:764-772 | a tunnel with a stream whose socket is live is never disconnected |
| Housekeeping.BackoffBounds | libpagekite/pkmanager.c:816-837 | with the timer running the interval grows by a third, capped at housekeeping_interval_max + fudge; with it stopped it resets to 1 + the minimum |
| Housekeeping.BackoffReachesCap | libpagekite/pkmanager.c:825-829 | repeated ticks grow the interval by at least one each time until it reaches the cap, and never pass the cap |
| Housekeeping.TickFromSpec | libpagekite/pkmanager.c:839-859 | tunnels without a socket are untouched; a dead tunnel (no activity for 4 minimum intervals since the last ping) is shut down; an idle live tunnel is pinged and the next tick drops to the minimum |
| Housekeeping.TickKeepsPings | libpagekite/pkmanager.c:850-857 | a ping sent earlier in the pass and the reset interval are kept by the rest of the pass |
| Housekeeping.TunnelIoShuts | libpagekite/pkmanager.c:843-849 | a live tunnel closed for reading (as marking it BROKEN does) is reset by update_io to ALLOCATED with no socket and no requests |
| JobPile.FirstSlot | libpagekite/pkblocker.c:35-82 | the lowest-index slot that is free (or occupied), and none exactly when there is no such slot |
| JobPile.OccupiedCountsJobs | libpagekite/pkblocker.c:35-82 | the number of occupied slots is the number of jobs held |
| JobPile.OccupiedHasFirst | libpagekite/pkblocker.c:62-75 | a pile with a positive count has an occupied slot, so pkb_get_job finds a job after the wait |
| JobPile.Pile.constructor | libpagekite/pkmanager.c:1280-1284 | the pile has the given number of slots, all PK_NO_JOB, and a count of 0 |
| JobPile.Pile.AddJob | libpagekite/pkblocker.c:35-54 | the job goes into the lowest free slot, the count rises by one and 1 is returned; with every slot taken -1 is returned and nothing changes |
| JobPile.Pile.GetJob | libpagekite/pkblocker.c:56-82 | with a positive count the lowest occupied slot is copied out and cleared to PK_NO_JOB/NULL, the count drops by one and the job leaves the pile |
| JobPile.QuitRoundTrip | libpagekite/pkmanager.c:1447-1453 | QUIT added to an empty pile gives count 1, comes back out, and the count returns to 0, the pile staying consistent |
| Manager.PkManager.constructor | libpagekite/pkmanager.c:1194-1349 | table sizes are raised to the minima, all kite slots are empty, tunnels have no address or socket, streams are UNKNOWN with no socket, the pile has one slot per stream and tunnel, status is STARTUP and the timer starts at 1 + the minimum interval |
| Manager.PkManager.ParseEof | libpagekite/pkmanager.c:510-538 | the stream's status gains exactly the bits of the EOF token, and nothing else in the table changes |
| Manager.PkManager.FlowControlTunnel | libpagekite/pkmanager.c:468-492 | the stream table becomes FlowTunnel of the old one |
| Manager.PkManager.FreeBeConn | libpagekite/pkmanager.c:1142-1145 | the slot's status becomes UNKNOWN (free) and nothing else changes |
| Manager.PkManager.UpdateConnIo | libpagekite/pkmanager.c:318-466 | update_io on a stream leaves the stream table and counters as BeIo of the old ones, and touches no tunnel state |
| Manager.PkManager.UpdateTunnelIo | libpagekite/pkmanager.c:318-466 | update_io on a tunnel leaves tunnels, streams and counters as TunnelIo of the old ones |
| Manager.PkManager.SweepEof | libpagekite/pkmanager.c:428-439 | the EOF sweep over the streams of a closing tunnel |
| Manager.PkManager.CloseTunnel | libpagekite/pkmanager.c:449-458 | the tunnel is reset to ALLOCATED with no socket and no requests, live_tunnels drops, status is PROBLEMS, and the tick is requested |
| Manager.PkManager.CloseStep | libpagekite/pkmanager.c:350-418 | the status-bit part of update_io, computed step by step over the read half and then the write half, gives the transition IoStepOf whose properties the Io lemmas state |
| Manager.PkManager.AllocBeConn | libpagekite/pkmanager.c:1086-1140 | the stream table and the slot returned are those AllocResult gives for the old table |
| Manager.PkManager.Evict | libpagekite/pkmanager.c:1128-1134 | the evicted slot is closed both ways, run through BeIo on behalf of the requesting tunnel, then claimed for the new sid and tunnel, as AllocResult's eviction branch states |
| Manager.PkManager.AddKite | libpagekite/pkmanager.c:959-997 | the first free kite slot receives StoredKite and the slot is returned; with no free slot ERR_NO_MORE_KITES and nothing changes |
| Manager.PkManager.AddFrontendAi | libpagekite/pkmanager.c:1034-1072 | the outcome is AddFrontendChoice of the old table, the chosen slot receives NewFrontend, and a refusal changes nothing |
| Manager.PkManager.ReconnectAll | libpagekite/pkmanager.c:641-741 | tunnels, status and live_tunnels become ReconnectFrom of the old ones and tried minus connected is returned |
| Manager.PkManager.ReconnectTunnel | libpagekite/pkmanager.c:655-736 | one tunnel's reconnect step equals ReconnectOne |
| Manager.PkManager.DisconnectUnused | libpagekite/pkmanager.c:743-792 | the tunnel table becomes DisconnectUnused of the old one and the number of tunnels closed is returned |
| Manager.PkManager.TickTunnels | libpagekite/pkmanager.c:839-859 | the loop over the tunnels: a dead one is marked BROKEN and run through update_io, an idle one is pinged and brings the interval back to the minimum, as TickFrom states |
| Manager.PkManager.TickCb | libpagekite/pkmanager.c:799-880 | the interval is backed off, every tunnel gets the tick's dead/idle treatment, and CHECK_WORLD (resetting the interval) or CHECK_FRONTENDS is added to the pile when a slot is free |
| Manager.CountUnknown | libpagekite/pkmanager.c:670-673 | the reconnect count is positive exactly when some of the first kite_max requests is UNKNOWN |
| Selector.ClearTransientSpec | libpagekite/pkblocker.c:91-96 | exactly REJECTED, LAME, IS_FAST and IN_DNS are cleared on every tunnel, nothing else changes, and clearing twice is clearing once |
| Selector.BestFromSpec | libpagekite/pkblocker.c:118-133 | one round's scan keeps a candidate of least rank, the first one on ties |
| Selector.BestSpec | libpagekite/pkblocker.c:115-133 | a round picks a candidate (front-end with nonzero priority, not fast, rejected or lame) of least priority + 25 * error_count, the lowest index on ties, and picks none only when there is no candidate |
| Selector.CountFastUpdate | libpagekite/pkblocker.c:134-135 | marking one more front-end fast adds one to the fast count |
| Selector.FastRoundSpec | libpagekite/pkblocker.c:115-135 | one round marks at most one front-end IS_FAST, and only a candidate; it unmarks none and changes no other bit or field |
| Selector.MarkFastSpec | libpagekite/pkblocker.c:114-136 | the rounds mark at most one new front-end fast per round, only candidates, never unmark one, and change no other bit or field |
| Selector.WantedRuleSpec | libpagekite/pkblocker.c:139-169 | a front-end ends WANTED exactly when it is NAILED_UP or IS_FAST and neither REJECTED nor LAME; tunnels without a host name are untouched |
| Selector.AimingZero | libpagekite/pkblocker.c:170-173 | the count is zero exactly when no front-end is WANTED or IN_DNS |
| Selector.FirstUsableFrom | libpagekite/pkblocker.c:176-187 | the first configured front-end neither REJECTED nor LAME |
| Selector.ChooseTunnelsFallbacks | libpagekite/pkblocker.c:138-207 | with a front-end WANTED or IN_DNS the selection stands; otherwise the first usable front-end becomes WANTED; failing that every configured front-end with a live socket becomes WANTED; failing that nothing changes |
| Selector.MostRecentFromSpec | libpagekite/pkblocker.c:267-280 | the renewal scan keeps the front-end seen in DNS most recently, the first one on ties |
| Selector.MostRecentSpec | libpagekite/pkblocker.c:267-280 | dns_fe is a front-end with the greatest positive last_ddnsup, the lowest index on ties, or none when no front-end has a positive one |
| Selector.ResolvedByStep | libpagekite/pkblocker.c:240-253 | one more DNS answer matches a front-end exactly when it equals its address |
| Selector.CheckKitesDnsSpec | libpagekite/pkblocker.c:229-289 | a front-end matching a DNS answer gets IN_DNS and last_ddnsup = now; IN_DNS holds exactly when it matched, was seen within the update window, or is the most recently seen one when nothing is in DNS; nothing else changes |
| Selector.AddressListSpec | libpagekite/pkblocker.c:414-434 | the address list stays within 1000 bytes, lists only live WANTED front-ends, and is empty when none is listed |
| Selector.StaleCountZero | libpagekite/pkblocker.c:414-436 | the "bogus" count is zero exactly when no front-end is stale (live and WANTED but not IN_DNS or forced, or IN_DNS but not WANTED) |
| Selector.KitePassSpec | libpagekite/pkblocker.c:439-473 | the failures are the kites with a protocol whose update got no reply or a reply not starting with "nochg"/"good"; any kite sets status DYNDNS; an accepted update marks the listed front-ends |
| Selector.MarkListedTwice | libpagekite/pkblocker.c:460-463 | marking the listed front-ends again changes nothing |
| Selector.UpdateDnsGated | libpagekite/pkblocker.c:405-436 | inside the minimum interval, or with nothing bogus, update_dns returns 0 and changes nothing |
| Selector.UpdateDnsSends | libpagekite/pkblocker.c:436-477 | past the gates, the result is the kite pass over the address list with last_dns_update = now |
| Selector.UpdateDnsSpec | libpagekite/pkblocker.c:393-478 | past the interval with something bogus: an empty address list changes nothing; otherwise the failures are counted, last_dns_update becomes now, and the listed front-ends are marked when some update was accepted |
| Selector.VerdictSpec | libpagekite/pkblocker.c:543-549 | the status becomes FLYING exactly when there were no problems and a tunnel is live; otherwise PROBLEMS, unless it was REJECTED |
| Blocker.ClearTransientFlags | libpagekite/pkblocker.c:84-97 | the tunnel table becomes ClearTransient of the old one |
| Blocker.ChooseTunnels | libpagekite/pkblocker.c:99-208 | the tunnel table becomes Selector.ChooseTunnels of the old one |
| Blocker.ClearWantedPass | libpagekite/pkblocker.c:107-112 | the first pass of choose_tunnels |
| Blocker.FastRounds | libpagekite/pkblocker.c:114-136 | want_spare_frontends + 1 rounds of MarkFast |
| Blocker.WantedPass | libpagekite/pkblocker.c:138-172 | the table becomes WantedRule of the old one, and the count is positive exactly when a front-end is WANTED or IN_DNS |
| Blocker.FirstUsablePass | libpagekite/pkblocker.c:176-187 | the first usable front-end becomes WANTED, or nothing changes when there is none |
| Blocker.KeepLivePass | libpagekite/pkblocker.c:193-203 | every configured front-end with a live socket becomes WANTED |
| Blocker.CheckKitesDns | libpagekite/pkblocker.c:210-292 | the tunnel table becomes Selector.CheckKitesDns of the old one |
| Blocker.MatchPass | libpagekite/pkblocker.c:229-257 | the DNS flags are cleared and set from the answers, and the count is positive exactly when a front-end is IN_DNS |
| Blocker.RenewPass | libpagekite/pkblocker.c:262-280 | the window renewal, returning the most recently seen front-end and the IN_DNS count, positive exactly when a front-end is IN_DNS |
| Blocker.UpdateDns | libpagekite/pkblocker.c:393-478 | tunnels, status, last_dns_update and the returned failures are those of Selector.UpdateDns |
| Blocker.KiteUpdates | libpagekite/pkblocker.c:439-475 | the kite loop of update_dns equals KitePass |
| Blocker.AddressPass | libpagekite/pkblocker.c:414-434 | the address list and listed front-ends equal AddressList, and the bogus count is positive exactly when some front-end is stale |
| Blocker.MarkListedPass | libpagekite/pkblocker.c:460-463 | the listed front-ends are marked IN_DNS with last_ddnsup = now |
| Blocker.CheckWorld | libpagekite/pkblocker.c:508-520 | with NO_NETWORK nothing changes; otherwise the transient flags are cleared, DNS is checked and last_world_update becomes now + fudge |
| Blocker.CheckTunnels | libpagekite/pkblocker.c:522-550 | with NO_NETWORK nothing changes and 0 is returned; otherwise tunnels, status, live_tunnels and last_dns_update are those of CheckTunnelsResult (DNS check, selection, reconnect, disconnect only without problems, the DNS update only with a URL and not REJECTED), force_update is cleared, and the problems returned are the failed connects plus the failed updates, whose Verdict is the status |
| Blocker.ActOnChoice | libpagekite/pkblocker.c:534-549 | from the chosen front-ends, the table, status, live_tunnels, last_dns_update and problem count are those of AfterChoice, and force_update is cleared |
| Blocker.UpdateDnsIfWanted | libpagekite/pkblocker.c:538-540 | with an update URL and a status other than REJECTED the state and failures are those of Selector.UpdateDns; otherwise nothing changes and no update fails |
| Blocker.Conclude | libpagekite/pkblocker.c:542-549 | force_update is cleared and the status becomes the Verdict on the problems and live_tunnels |
| Blocker.RunBlocker | libpagekite/pkblocker.c:552-585 | one job is taken; QUIT is put back and ends the thread; CHECK_WORLD and CHECK_FRONTENDS run only when the minimum interval has passed since the last run and update the timestamps; a due CHECK_FRONTENDS leaves the state of CheckTunnelsResult on the old table, a due CHECK_WORLD that of CheckTunnelsResult on the old table with transient flags cleared and DNS checked with the world answers, with last_world_update = now + fudge; with NO_NETWORK, or when nothing is due, the table and status do not change |
| Scenarios.FillFrontends | libpagekite/pkmanager.c:1455-1460 | every slot of an empty front-end table takes the zeroed address, and the next add fails with ERR_NO_MORE_FRONTENDS |
| Scenarios.FillKites | libpagekite/pkmanager.c:1462-1466 | every slot of an empty kite table takes the kite, and the next add fails with ERR_NO_MORE_KITES |
| Scenarios.AllocInto | libpagekite/pkmanager.c:1100-1107 | with a free slot an allocation succeeds, uses a free slot and changes no other slot |
| Scenarios.StreamTest | libpagekite/pkmanager.c:1470-1482 | "abc" is not found at first; after three allocations it is found with sid "abc" and nothing read; after free it is gone |
| Scenarios.ManagerSelfTest | libpagekite/pkmanager.c:1426-1482 | the whole table test of pkmanager_test: default sizes, the QUIT round trip, both tables filled then refused, "foo" found and "bar" not, and the stream lookups |

## Left out

- Threads and locking are not modelled: `pkm_block`, `pkm_unblock`, `pkm_yield`, the mutex and condition variable of the job pile, `PKS_STATE`, `pkb_start_blockers`, `pkb_stop_blockers`, `pkm_run*`, `pkm_stop_thread`. Everything runs sequentially, and the wait in `pkb_get_job` becomes the precondition `count > 0`.
- JobPile.Pile.GetJob: the `-1` return for an empty pile after the wait is not modelled, because the wait only returns with a job present.
- The event loop and sockets are no-ops or inputs: libev watchers, `PKS_shutdown`, `PKS_close`, `set_non_blocking`, `pk_connect_ai`, `getaddrinfo`, `pkm_add_frontend`. A connect result is a `ConnectOutcome` and DNS answers are address sequences.
- `pkm_chunk_cb`, `pkm_connect_be`, `pkm_write_chunked` and the readable/writable callbacks are not modelled: they move bytes between sockets and the protocol parser. This includes the `send_window_kb *= 0.8` throttle, which is floating point.
- `pkb_tunnel_ping` and `pkb_check_tunnel_pingtimes` are not modelled: they are built on timing, `rand()` and sockets. The priority they produce is an input field of each tunnel.
- The network part of `http_get`, `pk_sign`, `pk_format_eof`, `pk_format_ping` and the URL `sprintf` are not modelled: they are I/O or code outside this core. An update's reply is an input string (empty for no response); an EOF or ping written to a tunnel is an `Emit` record.
- `in_addr_to_str` / `in_ipaddr_to_str` are not modelled: the text form of each front-end's address is an input (`None` when conversion fails).
- Logging, `pkb_log_fe_status`, `pk_dump_be_conn` and the memory canaries are not modelled: they have no effect on the tables.
- Manager.PkManager.constructor: the arena layout of `pkm_manager_init` is not modelled, nor its too-small-buffer errors (`ERR_TOOBIG_*`), nor the parser buffers. Table sizes are parameters, and `rand()` is the `fudgeSeed` parameter.
- `pkm_reset_timer`, `pkm_set_timer_enabled`, `pkm_reset_manager`, `pkm_manager_free` and `pkm_timer_cb` are not modelled: they are timer and teardown plumbing.
- Manager.PkManager.AllocBeConn: the sid is not truncated to `BE_MAX_SID_SIZE-1`, because sids are taken to fit. The hash works on each character modulo 256.
- Manager.PkManager.AddKite: the `strncpyz` truncation of the kite fields is not modelled, because fields are taken to fit. The `sscanf` port reader does not model integer overflow.
- Integer width: counters and times are unbounded integers. The 32-bit wrap-around of `int`/`time_t` is not modelled; the only saturation in the source (`error_count` at 999) is modelled.
- `pkc_reset_conn` (in `pkconn.c`) is not part of this model. It is taken to set the status and activity time, zero the counters and the output buffer, restore the send window and leave the socket alone.
- The numeric values of the status bits (`pkconn.h`) are not part of this model. `CONN_STATUS_BROKEN` is taken as its own bit together with both close bits; `CONN_STATUS_BLOCKED` is taken as either blocked bit; `PK_KITE_UNKNOWN` is the zeroed request.
- Update replies: a NUL byte inside a reply is not treated as the end of the string. The `result[7] = '\0'` write on a failed update (`libpagekite/pkblocker.c:466`) is not modelled. Its target is not always inside the reply: for a one-byte reply, `skip_http_header` returns its two-byte literal `"\0"` (`libpagekite/utils.c:50,61`), and the write lands past the end of that literal. Replies are strings here, so writes outside them cannot be expressed.
- Io.BeIo: the call to `pkc_report_progress` (`libpagekite/pkmanager.c:343`) is a no-op, because that function is in `pkconn.c`, which is not part of this model. Any progress chunk it writes to the stream's tunnel is therefore not among the `Emit` records.
- Utils.SplitUrl: requires a URL of at least seven characters. `http_get` skips the first seven characters (`"http://"`) and reads `url[5]` without checking the length (`libpagekite/utils.c:219-226`), so shorter URLs are outside the model.
- Selector.CheckKitesDns and Selector.UpdateDns take one `now` for the whole pass: the source calls `time(0)` several times.
- `pkm_sid_shift` of the empty sid is 0 by definition of `Pool.SidShift`; no separate member states it.

## Findings

| source | as written | input that shows it | evidently intended | confidence | as-written member | corrected member |
|---|---|---|---|---|---|---|
| libpagekite/utils.c:228-233 | when the host is not followed by '/', the character after the port is overwritten and `path` is advanced past it even when it is the terminating NUL, so the request is formatted from memory after the copied URL | "http://example.com" or "http://example.com:8080" (no path) | a URL without a path gets an empty path (and, without ':', the default port) | not executed | Utils.SplitUrlAsWritten, Utils.SplitUrlOverreads | Utils.SplitUrl, Utils.SplitUrlJoins |
