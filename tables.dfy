/**
 * The kite and front-end tables of libpagekite/pkmanager.c as pure
 * functions: the kite lookup of pkm_find_kite, the `proto-PORT` split of
 * pkm_add_kite and the slot choice of pkm_add_frontend_ai.
 */
module Tables {
  import opened Wrappers
  import opened Utils
  import opened State

  /* ------------------------------------------------------------------ */
  /* pkm_find_kite                                                       */
  /* ------------------------------------------------------------------ */

  /** A kite in use whose protocol and public domain match, up to case. */
  predicate KiteMatches(k: Kite, protocol: string, domain: string)
  {
    k.protocol != "" && EqualIgnoreCase(domain, k.publicDomain) && EqualIgnoreCase(protocol, k.protocol)
  }

  /** A matching kite bound to exactly this port. */
  predicate ExactKite(k: Kite, protocol: string, domain: string, port: int)
  {
    KiteMatches(k, protocol, domain) && k.publicPort > 0 && k.publicPort == port
  }

  /** A matching kite that serves any port. */
  predicate AnyPortKite(k: Kite, protocol: string, domain: string)
  {
    KiteMatches(k, protocol, domain) && k.publicPort <= 0
  }

  /**
   * The scan of pkm_find_kite from slot i on, `found` being the last
   * any-port kite seen so far: an exact kite ends the scan at once, an
   * any-port kite replaces `found`.
   */
  function FindKiteFrom(kites: seq<Kite>, protocol: string, domain: string, port: int, i: nat, found: Option<nat>): (r: Option<nat>)
    requires i <= |kites|
    requires forall k :: 0 <= k < i ==> !ExactKite(kites[k], protocol, domain, port)
    requires found.Some? ==> found.value < i && AnyPortKite(kites[found.value], protocol, domain)
    requires found.Some? ==> forall k :: found.value < k < i ==> !AnyPortKite(kites[k], protocol, domain)
    requires found.None? ==> forall k :: 0 <= k < i ==> !AnyPortKite(kites[k], protocol, domain)
    ensures r.Some? ==> r.value < |kites| && KiteMatches(kites[r.value], protocol, domain)
    ensures r.Some? && ExactKite(kites[r.value], protocol, domain, port) ==>
              forall k :: 0 <= k < r.value ==> !ExactKite(kites[k], protocol, domain, port)
    ensures r.Some? && !ExactKite(kites[r.value], protocol, domain, port) ==>
              AnyPortKite(kites[r.value], protocol, domain) &&
              (forall k :: 0 <= k < |kites| ==> !ExactKite(kites[k], protocol, domain, port)) &&
              (forall k :: r.value < k < |kites| ==> !AnyPortKite(kites[k], protocol, domain))
    ensures r.None? ==> forall k :: 0 <= k < |kites| ==>
              !ExactKite(kites[k], protocol, domain, port) && !AnyPortKite(kites[k], protocol, domain)
    decreases |kites| - i
  {
    if i == |kites| then found
    else
      var k := kites[i];
      if KiteMatches(k, protocol, domain) && k.publicPort <= 0 then
        FindKiteFrom(kites, protocol, domain, port, i + 1, Some(i))
      else if KiteMatches(k, protocol, domain) && k.publicPort == port then
        Some(i)
      else
        FindKiteFrom(kites, protocol, domain, port, i + 1, found)
  }

  /**
   * pkm_find_kite: the first kite bound to exactly this port if there is
   * one, else the last kite serving any port, else nothing.
   */
  function FindKite(kites: seq<Kite>, protocol: string, domain: string, port: int): (r: Option<nat>)
    ensures r.Some? ==> r.value < |kites| && KiteMatches(kites[r.value], protocol, domain)
    ensures (exists k :: 0 <= k < |kites| && ExactKite(kites[k], protocol, domain, port)) ==>
              r.Some? && ExactKite(kites[r.value], protocol, domain, port) &&
              forall k :: 0 <= k < r.value ==> !ExactKite(kites[k], protocol, domain, port)
    ensures (forall k :: 0 <= k < |kites| ==> !ExactKite(kites[k], protocol, domain, port)) ==>
              match r
              case Some(j) =>
                AnyPortKite(kites[j], protocol, domain) &&
                forall k :: j < k < |kites| ==> !AnyPortKite(kites[k], protocol, domain)
              case None =>
                forall k :: 0 <= k < |kites| ==> !AnyPortKite(kites[k], protocol, domain)
  {
    FindKiteFrom(kites, protocol, domain, port, 0, None)
  }

  /* ------------------------------------------------------------------ */
  /* pkm_add_kite                                                        */
  /* ------------------------------------------------------------------ */

  /** The first kite slot with an empty protocol. */
  function FirstFreeKite(kites: seq<Kite>): (r: Option<nat>)
    ensures r.Some? ==> r.value < |kites| && kites[r.value].protocol == "" &&
                        forall k :: 0 <= k < r.value ==> kites[k].protocol != ""
    ensures r.None? <==> forall k :: 0 <= k < |kites| ==> kites[k].protocol != ""
  {
    if kites == [] then None
    else if kites[0].protocol == "" then Some(0)
    else match FirstFreeKite(kites[1..])
      case None => None
      case Some(i) => Some(i + 1)
  }

  predicate IsSpace(c: char)
  {
    c == ' ' || c == '\t' || c == '\n' || c == 11 as char || c == 12 as char || c == '\r'
  }

  predicate IsDigit(c: char)
  {
    '0' <= c <= '9'
  }

  /** The number of leading characters of s that satisfy the digit test. */
  function DigitRun(s: string): (n: nat)
    ensures n <= |s| && forall k :: 0 <= k < n ==> IsDigit(s[k])
    ensures n < |s| ==> !IsDigit(s[n])
  {
    if s == [] || !IsDigit(s[0]) then 0 else 1 + DigitRun(s[1..])
  }

  /** The value of a run of decimal digits, most significant first. */
  function DigitsValue(ds: string): nat
  {
    if ds == [] then 0 else 10 * DigitsValue(ds[..|ds| - 1]) + (ds[|ds| - 1] as int - '0' as int) % 10
  }

  /** sscanf(s, "%d", &v): white space, an optional sign and at least one
      digit give a value; anything else gives none and leaves v alone. */
  function ScanDecimal(s: string): Option<int>
  {
    if s != [] && IsSpace(s[0]) then ScanDecimal(s[1..])
    else
      var neg := s != [] && s[0] == '-';
      var start := if s != [] && (s[0] == '-' || s[0] == '+') then 1 else 0;
      var n := DigitRun(s[start..]);
      if n == 0 then None
      else
        var v := DigitsValue(s[start..][..n]);
        Some(if neg then -(v as int) else v)
  }

  /** The decimal text of a natural number, as printf's %d writes it. */
  function Decimal(n: nat): (s: string)
    ensures |s| > 0 && forall k :: 0 <= k < |s| ==> IsDigit(s[k])
  {
    if n < 10 then [('0' as int + n) as char] else Decimal(n / 10) + [('0' as int + n % 10) as char]
  }

  lemma {:induction false} DecimalValue(n: nat)
    ensures DigitsValue(Decimal(n)) == n
  {
    if n >= 10 {
      DecimalValue(n / 10);
      var s := Decimal(n);
      assert s[..|s| - 1] == Decimal(n / 10);
    }
  }

  /** Reading back printed numbers gives the number. */
  lemma ScanDecimalReadsDecimal(n: int, rest: string)
    requires rest == [] || !IsDigit(rest[0])
    ensures ScanDecimal((if n < 0 then "-" else "") + Decimal(if n < 0 then -n else n) + rest) == Some(n)
  {
    var m: nat := if n < 0 then -n else n;
    var d := Decimal(m);
    DecimalValue(m);
    var start := if n < 0 then 1 else 0;
    var s := (if n < 0 then "-" else "") + d + rest;
    assert s[start..] == d + rest;
    ScanDigits(s, start, d, rest);
  }

  /** sscanf reads the digits d after an optional sign at the start of s. */
  lemma ScanDigits(s: string, start: nat, d: string, rest: string)
    requires start <= 1 && start < |s| && s[start..] == d + rest && d != []
    requires forall k :: 0 <= k < |d| ==> IsDigit(d[k])
    requires rest == [] || !IsDigit(rest[0])
    requires start == 1 <==> s[0] == '-'
    ensures ScanDecimal(s) == Some(if start == 1 then -(DigitsValue(d) as int) else DigitsValue(d))
  {
    DigitRunOfDigits(d, rest);
    assert s[start..][..|d|] == d;
    assert start == 0 ==> s[0] == d[0];
    assert !IsSpace(s[0]) && s[0] != '+';
  }

  lemma {:induction false} DigitRunOfDigits(d: string, rest: string)
    requires forall k :: 0 <= k < |d| ==> IsDigit(d[k])
    requires rest == [] || !IsDigit(rest[0])
    ensures DigitRun(d + rest) == |d|
  {
    if d != [] {
      assert (d + rest)[1..] == d[1..] + rest;
      DigitRunOfDigits(d[1..], rest);
    } else {
      assert d + rest == rest;
    }
  }

  /** The index of the first c in s, if any (strchr). */
  function IndexOf(s: string, c: char): (r: Option<nat>)
    ensures r.Some? ==> r.value < |s| && s[r.value] == c && forall k :: 0 <= k < r.value ==> s[k] != c
    ensures r.None? <==> c !in s
  {
    if s == [] then None
    else if s[0] == c then Some(0)
    else match IndexOf(s[1..], c)
      case None => None
      case Some(i) => Some(i + 1)
  }

  /**
   * The kite pkm_add_kite stores: with no public port given, a protocol of
   * the form `proto-PORT` is cut at its first '-' and the text after it is
   * read as the port (which stays 0 when that text holds no number).
   */
  function StoredKite(protocol: string, publicDomain: string, publicPort: int, authSecret: string,
                      localDomain: string, localPort: int): (k: Kite)
    ensures k.publicDomain == publicDomain && k.authSecret == authSecret
    ensures k.localDomain == localDomain && k.localPort == localPort
    ensures publicPort != 0 || '-' !in protocol ==> k.protocol == protocol && k.publicPort == publicPort
    ensures publicPort == 0 && '-' in protocol ==> '-' !in k.protocol && |k.protocol| < |protocol|
  {
    var dash := IndexOf(protocol, '-');
    if publicPort == 0 && dash.Some? then
      var port := ScanDecimal(protocol[dash.value + 1..]);
      Kite(protocol[..dash.value], authSecret, publicDomain, if port.Some? then port.value else 0, localDomain, localPort)
    else
      Kite(protocol, authSecret, publicDomain, publicPort, localDomain, localPort)
  }

  /** `proto-PORT` with no public port stores the protocol and the port
      separately, for any protocol name without a dash. */
  lemma StoredKiteSplitsPort(proto: string, port: nat, domain: string, secret: string)
    requires '-' !in proto
    ensures var k := StoredKite(proto + "-" + Decimal(port), domain, 0, secret, "localhost", 80);
      k.protocol == proto && k.publicPort == port
  {
    var p := proto + "-" + Decimal(port);
    FirstDash(proto, Decimal(port));
    assert p[|proto| + 1..] == "" + Decimal(port) + "";
    ScanDecimalReadsDecimal(port, "");
    assert ScanDecimal(p[|proto| + 1..]) == Some(port);
    assert p[..|proto|] == proto;
  }

  lemma FirstDash(proto: string, rest: string)
    requires '-' !in proto
    ensures IndexOf(proto + "-" + rest, '-') == Some(|proto|)
  {
    var p := proto + "-" + rest;
    assert p[|proto|] == '-';
    var r := IndexOf(p, '-');
    assert forall k :: 0 <= k < |proto| ==> p[k] == proto[k];
  }

  /** The kite test of pkmanager_test: "http" with port 80 is stored as is. */
  lemma StoredKitePlain()
    ensures StoredKite("http", "foo", 80, "sec", "localhost", 80) == Kite("http", "sec", "foo", 80, "localhost", 80)
  {
  }

  /* ------------------------------------------------------------------ */
  /* pkm_add_frontend_ai                                                 */
  /* ------------------------------------------------------------------ */

  /** The outcome of pkm_add_frontend_ai: the slot claimed, NULL for an
      address already present, or ERR_NO_MORE_FRONTENDS. */
  datatype AddFrontendResult = FrontendAdded(slot: nat) | AlreadyPresent | NoMoreFrontends

  /** A stored front-end with the same address as the new one (only a new
      address of nonzero length is compared). */
  predicate SameAddress(t: Tunnel, ai: AddrInfo)
  {
    t.ai.Some? && ai.addrlen > 0 && AddrCmp(t.ai.value.addr, ai.addr) == 0
  }

  /** The first slot with no address. */
  function FirstFreeTunnel(tunnels: seq<Tunnel>): (r: Option<nat>)
    ensures r.Some? ==> r.value < |tunnels| && tunnels[r.value].ai.None? &&
                        forall k :: 0 <= k < r.value ==> tunnels[k].ai.Some?
    ensures r.None? <==> forall k :: 0 <= k < |tunnels| ==> tunnels[k].ai.Some?
  {
    if tunnels == [] then None
    else if tunnels[0].ai.None? then Some(0)
    else match FirstFreeTunnel(tunnels[1..])
      case None => None
      case Some(i) => Some(i + 1)
  }

  /** What pkm_add_frontend_ai does with the table: refuse a duplicate
      address wherever it is, else claim the first free slot. */
  function AddFrontendChoice(tunnels: seq<Tunnel>, ai: AddrInfo): (r: AddFrontendResult)
    ensures r.AlreadyPresent? <==> exists k :: 0 <= k < |tunnels| && SameAddress(tunnels[k], ai)
    ensures r.NoMoreFrontends? <==>
              (forall k :: 0 <= k < |tunnels| ==> !SameAddress(tunnels[k], ai)) &&
              (forall k :: 0 <= k < |tunnels| ==> tunnels[k].ai.Some?)
    ensures r.FrontendAdded? ==> r.slot < |tunnels| && tunnels[r.slot].ai.None?
  {
    if exists k :: 0 <= k < |tunnels| && SameAddress(tunnels[k], ai) then AlreadyPresent
    else match FirstFreeTunnel(tunnels)
      case None => NoMoreFrontends
      case Some(j) => FrontendAdded(j)
  }

  /** The record a claimed slot receives. */
  function NewFrontend(t: Tunnel, ai: AddrInfo, hostname: string, port: int, flags: Status): (r: Tunnel)
    ensures r.ai == Some(ai) && r.hostname == Some(hostname) && r.port == port
    ensures r.lastDdnsup == 0 && r.errorCount == 0 && r.requestCount == 0 && r.priority == 0
    ensures r.conn.status == flags + {Allocated}
    ensures r.conn.sockfd == t.conn.sockfd && r.requests == t.requests && r.lastPing == t.lastPing
  {
    t.(ai := Some(ai), hostname := Some(hostname), port := port, lastDdnsup := 0, errorCount := 0,
       conn := t.conn.(status := flags + {Allocated}), requestCount := 0, priority := 0)
  }

  /** An address of length 0 never counts as a duplicate: the table test
      of pkmanager_test fills every slot with zeroed addresses. */
  lemma ZeroLengthNeverDuplicate(tunnels: seq<Tunnel>, ai: AddrInfo)
    requires ai.addrlen == 0
    ensures AddFrontendChoice(tunnels, ai) == (if FirstFreeTunnel(tunnels).Some? then FrontendAdded(FirstFreeTunnel(tunnels).value) else NoMoreFrontends)
  {
  }
}
