/**
 * The byte and string helpers of libpagekite/utils.c: locating the first
 * CRLF, skipping an HTTP header, comparing socket addresses, hex-encoding a
 * SHA-1 digest and splitting the URL handed to http_get.  C strings are
 * modelled as `seq<char>` holding the characters before the terminating NUL;
 * the NUL itself sits at index |s|.  The libc comparisons the core relies on
 * (strcasecmp, strncasecmp, memcmp) are defined here too.
 */
module Utils {
  import opened Wrappers

  /** An unsigned char. */
  newtype byte = x: int | 0 <= x < 256

  /* ------------------------------------------------------------------ */
  /* libc comparisons                                                    */
  /* ------------------------------------------------------------------ */

  /** ASCII lower-casing, as strcasecmp does in the C locale. */
  function Lower(c: char): char
  {
    if 'A' <= c <= 'Z' then (c as int + 32) as char else c
  }

  /** strcasecmp(a, b) == 0 */
  predicate EqualIgnoreCase(a: string, b: string)
  {
    |a| == |b| && forall i :: 0 <= i < |a| ==> Lower(a[i]) == Lower(b[i])
  }

  /** strncasecmp(s, prefix, |prefix|) == 0: s is at least as long as the
      prefix (a shorter s meets its NUL first) and agrees with it up to case. */
  predicate StartsWithIgnoreCase(s: string, prefix: string)
  {
    |prefix| <= |s| && EqualIgnoreCase(s[..|prefix|], prefix)
  }

  /** memcmp over two address fields: the sign of the first differing byte. */
  function Compare(a: seq<byte>, b: seq<byte>): (r: int)
    ensures r == -1 || r == 0 || r == 1
    ensures r == 0 <==> a == b
  {
    if a == [] && b == [] then 0
    else if a == [] then -1
    else if b == [] then 1
    else if a[0] < b[0] then -1
    else if a[0] > b[0] then 1
    else
      var r := Compare(a[1..], b[1..]);
      assert r == 0 ==> a == [a[0]] + a[1..] == [b[0]] + b[1..] == b;
      assert a == b ==> a[1..] == b[1..];
      r
  }

  /** Swapping the operands of memcmp flips the sign of its answer. */
  lemma {:induction false} CompareAntisymmetric(a: seq<byte>, b: seq<byte>)
    ensures Compare(a, b) == -Compare(b, a)
  {
    if a != [] && b != [] && a[0] == b[0] {
      CompareAntisymmetric(a[1..], b[1..]);
    }
  }

  /* ------------------------------------------------------------------ */
  /* zero_first_crlf                                                     */
  /* ------------------------------------------------------------------ */

  /** s holds "\r\n" at positions i and i + 1. */
  predicate CrlfAt(s: seq<char>, i: int)
  {
    0 <= i && i + 1 < |s| && s[i] == '\r' && s[i + 1] == '\n'
  }

  /**
   * Terminates the first line of `data[..length]`: the first CRLF is
   * overwritten with two NULs and the offset just past it is returned; with
   * no CRLF the buffer is left alone and 0 is returned.
   */
  method ZeroFirstCrlf(length: int, data: array<char>) returns (r: int)
    requires length <= data.Length
    modifies data
    ensures r == 0 ==> data[..] == old(data[..])
    ensures r == 0 ==> forall i :: 0 <= i < length - 1 ==> !CrlfAt(old(data[..]), i)
    ensures r != 0 ==> 2 <= r <= length && CrlfAt(old(data[..]), r - 2)
    ensures r != 0 ==> forall i :: 0 <= i < r - 2 ==> !CrlfAt(old(data[..]), i)
    ensures r != 0 ==> data[..] == old(data[..])[r - 2 := '\0'][r - 1 := '\0']
  {
    var i := 0;
    while i < length - 1
      invariant 0 <= i && (i <= length - 1 || i == 0)
      invariant data[..] == old(data[..])
      invariant forall k :: 0 <= k < i ==> !CrlfAt(data[..], k)
    {
      if data[i] == '\r' && data[i + 1] == '\n' {
        data[i] := '\0';
        data[i + 1] := '\0';
        return i + 2;
      }
      i := i + 1;
    }
    return 0;
  }

  /** The two cases exercised by utils_test. */
  method ZeroFirstCrlfExamples() returns (a: int, b: int, line: string)
    ensures a == 2 && b == 6 && line == "abcd\0\0\r\n"
  {
    var s1 := "\r\n\r\n";
    var buf1 := new char[|s1|](i requires 0 <= i < |s1| => s1[i]);
    assert buf1[..] == s1;
    a := ZeroFirstCrlf(4, buf1);
    assert CrlfAt(s1, 0);

    var s2 := "abcd\r\n\r\ndefghijklmnop";
    var buf2 := new char[|s2|](i requires 0 <= i < |s2| => s2[i]);
    assert buf2[..] == s2;
    b := ZeroFirstCrlf(|s2|, buf2);
    assert CrlfAt(s2, 4);
    assert !CrlfAt(s2, 0) && !CrlfAt(s2, 1) && !CrlfAt(s2, 2) && !CrlfAt(s2, 3);
    line := buf2[..8];
  }

  /* ------------------------------------------------------------------ */
  /* skip_http_header                                                    */
  /* ------------------------------------------------------------------ */

  /** Every character of s[a..b] is a carriage return. */
  predicate AllCr(s: seq<char>, a: int, b: int)
    requires 0 <= a && b <= |s|
  {
    forall k :: a <= k < b ==> s[k] == '\r'
  }

  /** Before position i the last character that is not '\r' is a '\n'. */
  ghost predicate OpenLine(s: seq<char>, i: int)
  {
    i <= |s| && exists j :: 0 <= j < i && s[j] == '\n' && AllCr(s, j + 1, i)
  }

  /** Position i holds the '\n' that ends an empty line: the second '\n' of a
      run of line feeds separated only by carriage returns. */
  ghost predicate BlankLineAt(s: seq<char>, i: int)
  {
    0 <= i < |s| && s[i] == '\n' && OpenLine(s, i)
  }

  /** The loop of skip_http_header from index i, with `lfs` line feeds seen
      in the current run. */
  function ScanHeader(data: seq<char>, length: int, i: nat, lfs: int): nat
    requires i < length - 1 && length <= |data|
    decreases length - i
  {
    var lfs' := if data[i] == '\n' then lfs + 1 else if data[i] != '\r' then 0 else lfs;
    if data[i] == '\n' && lfs' == 2 then i + 1
    else if i + 1 < length - 1 then ScanHeader(data, length, i + 1, lfs')
    else i
  }

  /** The line-feed counter of the loop is 1 exactly on an open line. */
  lemma OpenLineStep(data: seq<char>, i: nat)
    requires i < |data|
    ensures data[i] == '\n' ==> OpenLine(data, i + 1)
    ensures data[i] == '\r' ==> (OpenLine(data, i + 1) <==> OpenLine(data, i))
    ensures data[i] != '\n' && data[i] != '\r' ==> !OpenLine(data, i + 1)
  {
    if data[i] == '\n' {
      assert AllCr(data, i + 1, i + 1);
    } else if data[i] == '\r' {
      if OpenLine(data, i) {
        var j :| 0 <= j < i && data[j] == '\n' && AllCr(data, j + 1, i);
        assert AllCr(data, j + 1, i + 1);
      }
      if OpenLine(data, i + 1) {
        var j :| 0 <= j < i + 1 && data[j] == '\n' && AllCr(data, j + 1, i + 1);
        assert AllCr(data, j + 1, i);
      }
    } else {
      forall j | 0 <= j < i + 1 && data[j] == '\n'
        ensures !AllCr(data, j + 1, i + 1)
      {
        assert data[i] != '\r';
      }
    }
  }

  lemma {:induction false} ScanHeaderFinds(data: seq<char>, length: int, i: nat, lfs: int)
    requires i < length - 1 && length <= |data|
    requires lfs == 0 || lfs == 1
    requires lfs == 1 <==> OpenLine(data, i)
    ensures var r := ScanHeader(data, length, i, lfs);
      if exists m :: i <= m < length - 1 && BlankLineAt(data, m)
      then 0 < r && i <= r - 1 < length - 1 && BlankLineAt(data, r - 1) &&
           forall m :: i <= m < r - 1 ==> !BlankLineAt(data, m)
      else r == length - 2
    decreases length - i
  {
    if data[i] == '\n' && lfs == 1 {
      assert BlankLineAt(data, i);
    } else {
      assert !BlankLineAt(data, i);
      var lfs' := if data[i] == '\n' then lfs + 1 else if data[i] != '\r' then 0 else lfs;
      OpenLineStep(data, i);
      if i + 1 < length - 1 {
        ScanHeaderFinds(data, length, i + 1, lfs');
      }
    }
  }

  /**
   * skip_http_header: the position just after the first empty line among
   * `data[..length - 1]`; with none, the last position examined
   * (length - 2).  For length <= 1 the loop does not run and the static empty
   * string is returned, modelled as None.
   */
  function SkipHttpHeader(length: int, data: seq<char>): (p: Option<nat>)
    requires length <= |data|
    ensures p.None? <==> length <= 1
    ensures p.Some? && (exists m :: 0 <= m < length - 1 && BlankLineAt(data, m)) ==>
              0 < p.value < length && BlankLineAt(data, p.value - 1) &&
              forall m :: 0 <= m < p.value - 1 ==> !BlankLineAt(data, m)
    ensures p.Some? && (forall m :: 0 <= m < length - 1 ==> !BlankLineAt(data, m)) ==>
              p.value == length - 2
  {
    if length <= 1 then None
    else
      ScanHeaderFinds(data, length, 0, 0);
      Some(ScanHeader(data, length, 0, 0))
  }

  /** The header test of utils_test: "abcd\r\nfoo\r\n\r\ndef" skips to "def". */
  lemma SkipHttpHeaderExample()
    ensures var s := "abcd\r\nfoo\r\n\r\ndef";
      SkipHttpHeader(|s|, s) == Some(13) && s[13..] == "def"
  {
    var s := "abcd\r\nfoo\r\n\r\ndef";
    assert ScanHeader(s, 16, 12, 1) == 13;
    assert ScanHeader(s, 16, 11, 1) == 13;
    assert ScanHeader(s, 16, 10, 0) == 13;
    assert ScanHeader(s, 16, 9, 0) == 13;
    assert ScanHeader(s, 16, 8, 0) == 13;
    assert ScanHeader(s, 16, 7, 0) == 13;
    assert ScanHeader(s, 16, 6, 1) == 13;
    assert ScanHeader(s, 16, 5, 0) == 13;
    assert ScanHeader(s, 16, 4, 0) == 13;
    assert ScanHeader(s, 16, 3, 0) == 13;
    assert ScanHeader(s, 16, 2, 0) == 13;
    assert ScanHeader(s, 16, 1, 0) == 13;
    assert ScanHeader(s, 16, 0, 0) == 13;
  }

  /* ------------------------------------------------------------------ */
  /* addrcmp                                                             */
  /* ------------------------------------------------------------------ */

  /** Address families; the unknown ones keep their numeric code. */
  datatype Family = Inet | Inet6 | OtherFamily(code: int)

  /** A socket address: the family, the bytes of its address field
      (sin_addr or sin6_addr) and the port. */
  datatype SockAddr = SockAddr(family: Family, ip: seq<byte>, port: int)

  /** The two addresses name the same host: same known family, same bytes. */
  predicate SameHost(a: Option<SockAddr>, b: Option<SockAddr>)
  {
    a.Some? && b.Some? && a.value.family == b.value.family &&
    (a.value.family == Inet || a.value.family == Inet6) &&
    a.value.ip == b.value.ip
  }

  /**
   * addrcmp: 3 when either address is NULL, 1 when the families differ, 2 for
   * an unknown family, otherwise memcmp of the address bytes (ports ignored).
   * It answers 0 exactly for two addresses of the same host.
   */
  function AddrCmp(a: Option<SockAddr>, b: Option<SockAddr>): (r: int)
    ensures a.None? || b.None? ==> r == 3
    ensures a.Some? && b.Some? && a.value.family != b.value.family ==> r == 1
    ensures a.Some? && b.Some? && a.value.family == b.value.family && a.value.family.OtherFamily?
            ==> r == 2
    ensures r == 0 <==> SameHost(a, b)
  {
    if a.None? || b.None? then 3
    else if a.value.family != b.value.family then 1
    else match a.value.family
      case Inet => Compare(a.value.ip, b.value.ip)
      case Inet6 => Compare(a.value.ip, b.value.ip)
      case OtherFamily(_) => 2
  }

  /** addrcmp finds the same hosts equal whichever way round it is asked. */
  lemma AddrCmpSymmetric(a: Option<SockAddr>, b: Option<SockAddr>)
    ensures AddrCmp(a, b) == 0 <==> AddrCmp(b, a) == 0
    ensures a.Some? && b.Some? && a.value.family == b.value.family && !a.value.family.OtherFamily? ==>
              AddrCmp(a, b) == -AddrCmp(b, a)
  {
    if a.Some? && b.Some? {
      CompareAntisymmetric(a.value.ip, b.value.ip);
    }
  }

  /* ------------------------------------------------------------------ */
  /* digest_to_hex                                                       */
  /* ------------------------------------------------------------------ */

  /** The lower-case hex digit of a nibble, as printf's "%x" writes it. */
  function HexDigit(n: nat): (c: char)
    requires n < 16
    ensures '0' <= c <= '9' || 'a' <= c <= 'f'
  {
    if n < 10 then ('0' as int + n) as char else ('a' as int + n - 10) as char
  }

  /** The nibble a hex digit stands for. */
  function HexValue(c: char): (n: nat)
    ensures n < 16
  {
    if '0' <= c <= '9' then c as int - '0' as int
    else if 'a' <= c <= 'f' then c as int - 'a' as int + 10
    else 0
  }

  /** printf("%02x", b) */
  function ByteHex(b: byte): seq<char>
  {
    [HexDigit(b as int / 16), HexDigit(b as int % 16)]
  }

  /** Two hex digits per byte, in order. */
  function Hex(d: seq<byte>): (h: seq<char>)
    ensures |h| == 2 * |d|
  {
    if d == [] then [] else Hex(d[..|d| - 1]) + ByteHex(d[|d| - 1])
  }

  /** Reads a hex string back, two digits per byte. */
  function Unhex(h: seq<char>): seq<byte>
    requires |h| % 2 == 0
  {
    if h == [] then []
    else Unhex(h[..|h| - 2]) + [(HexValue(h[|h| - 2]) * 16 + HexValue(h[|h| - 1])) as byte]
  }

  /** Hex encoding loses nothing: decoding it gives the digest back. */
  lemma {:induction false} UnhexHex(d: seq<byte>)
    ensures Unhex(Hex(d)) == d
  {
    if d != [] {
      var d' := d[..|d| - 1];
      var b := d[|d| - 1];
      var h := Hex(d);
      assert h == Hex(d') + ByteHex(b);
      assert h[..|h| - 2] == Hex(d');
      assert HexValue(HexDigit(b as int / 16)) == b as int / 16;
      assert HexValue(HexDigit(b as int % 16)) == b as int % 16;
      assert (b as int / 16 * 16 + b as int % 16) as byte == b;
      UnhexHex(d');
      assert d == d' + [b];
    }
  }

  /** Every character of the encoding is a lower-case hex digit. */
  lemma {:induction false} HexIsLowerCase(d: seq<byte>)
    ensures forall i :: 0 <= i < |Hex(d)| ==> '0' <= Hex(d)[i] <= '9' || 'a' <= Hex(d)[i] <= 'f'
  {
    if d != [] {
      HexIsLowerCase(d[..|d| - 1]);
    }
  }

  /**
   * digest_to_hex: writes the 40 hex digits of a 20-byte SHA-1 digest into
   * `output`, followed by a NUL; nothing after those 41 characters changes.
   */
  method DigestToHex(digest: seq<byte>, output: array<char>)
    requires |digest| == 20 && output.Length >= 41
    modifies output
    ensures output[..41] == Hex(digest) + ['\0']
    ensures forall m :: 41 <= m < output.Length ==> output[m] == old(output[m])
  {
    var i := 0;
    while i < 5
      invariant 0 <= i <= 5
      invariant forall m :: 0 <= m < 8 * i ==> output[m] == Hex(digest)[m]
      invariant forall m :: 8 * i <= m < output.Length ==> output[m] == old(output[m])
    {
      var j := 0;
      while j < 4
        invariant 0 <= j <= 4
        invariant forall m :: 0 <= m < 8 * i + 2 * j ==> output[m] == Hex(digest)[m]
        invariant forall m :: 8 * i + 2 * j <= m < output.Length ==> output[m] == old(output[m])
      {
        var k := 4 * i + j;
        HexAt(digest, k);
        output[2 * k] := HexDigit(digest[k] as int / 16);
        output[2 * k + 1] := HexDigit(digest[k] as int % 16);
        j := j + 1;
      }
      i := i + 1;
    }
    output[40] := '\0';
  }

  /** Byte m of the digest is written at positions 2m and 2m + 1. */
  lemma {:induction false} HexAt(d: seq<byte>, m: nat)
    requires m < |d|
    ensures Hex(d)[2 * m] == HexDigit(d[m] as int / 16)
    ensures Hex(d)[2 * m + 1] == HexDigit(d[m] as int % 16)
  {
    if m < |d| - 1 {
      HexAt(d[..|d| - 1], m);
    }
  }

  /* ------------------------------------------------------------------ */
  /* The URL split at the start of http_get                              */
  /* ------------------------------------------------------------------ */

  /** The first index at or after i that is not '/', or |url|. */
  function SkipSlashes(url: string, i: nat): (k: nat)
    requires i <= |url|
    ensures i <= k <= |url| && (k < |url| ==> url[k] != '/')
    ensures forall m :: i <= m < k ==> url[m] == '/'
    decreases |url| - i
  {
    if i < |url| && url[i] == '/' then SkipSlashes(url, i + 1) else i
  }

  /** The first index at or after i holding a character of `stop`, or |url|. */
  function ScanUntil(url: string, i: nat, stop: set<char>): (k: nat)
    requires i <= |url|
    ensures i <= k <= |url| && (k < |url| ==> url[k] in stop)
    ensures forall m :: i <= m < k ==> url[m] !in stop
    decreases |url| - i
  {
    if i < |url| && url[i] !in stop then ScanUntil(url, i + 1, stop) else i
  }

  /** Where the host name starts: after the 7-character scheme prefix
      ("http://"; "https:/" for https) and any further slashes. */
  function HostStart(url: string): nat
    requires 7 <= |url|
  {
    SkipSlashes(url, 7)
  }

  /** The port used when the URL names none: 443 when url[5] is 's'. */
  function DefaultPort(url: string): string
    requires 7 <= |url|
  {
    if url[5] == 's' then "443" else "80"
  }

  /** The pointers http_get computes, as indices into its copy of the URL. */
  datatype UrlScan =
    | Scanned(hostStart: nat, hostEnd: nat, portStart: nat, portEnd: nat, pathStart: nat, defaulted: bool)
    | ReadsPastEnd(index: nat)

  /**
   * The URL split of http_get as written.  With '/' after the host the port
   * is the default.  Otherwise (':' or the end of the string) the character
   * there is overwritten and the port is read from the next index up to '/';
   * when no '/' follows, `path` is left one past the terminating NUL and the
   * request is formatted from memory outside the copied string.
   */
  function SplitUrlAsWritten(url: string): (r: UrlScan)
    requires 7 <= |url|
  {
    var hs := HostStart(url);
    var he := ScanUntil(url, hs, {'/', ':'});
    if he < |url| && url[he] == '/' then Scanned(hs, he, he, he, he + 1, true)
    else if he + 1 > |url| then ReadsPastEnd(he + 1)
    else
      var pe := ScanUntil(url, he + 1, {'/'});
      if pe + 1 > |url| then ReadsPastEnd(pe + 1)
      else Scanned(hs, he, he + 1, pe, pe + 1, false)
  }

  /** Both URL shapes without a path send http_get past the end of its copy. */
  lemma SplitUrlOverreads()
    ensures SplitUrlAsWritten("http://example.com") == ReadsPastEnd(19)
    ensures SplitUrlAsWritten("http://example.com:8080") == ReadsPastEnd(24)
  {
    var u1 := "http://example.com";
    assert HostStart(u1) == 7;
    ScanUntilStopsAt(u1, 7, 18, {'/', ':'});
    var u2 := "http://example.com:8080";
    assert HostStart(u2) == 7;
    ScanUntilStopsAt(u2, 7, 18, {'/', ':'});
    ScanUntilStopsAt(u2, 19, 23, {'/'});
  }

  /** ScanUntil stops at k when nothing before k is a stop character and k
      is the end or holds one. */
  lemma ScanUntilStopsAt(url: string, i: nat, k: nat, stop: set<char>)
    requires i <= k <= |url| && (k < |url| ==> url[k] in stop)
    requires forall m :: i <= m < k ==> url[m] !in stop
    ensures ScanUntil(url, i, stop) == k
  {
  }

  /** A split URL: host, port text and path (after the '/'), and whether the
      URL spelled out the port and the path. */
  datatype Url = Url(host: string, port: string, path: string, portGiven: bool, pathGiven: bool)

  /** Reassembles the part of a URL after the host's leading slashes. */
  function JoinUrl(u: Url): string
  {
    u.host + (if u.portGiven then [':'] + u.port else []) + (if u.pathGiven then ['/'] + u.path else [])
  }

  /** No character of s is in `stop`. */
  predicate NoneOf(s: string, stop: set<char>)
  {
    forall i :: 0 <= i < |s| ==> s[i] !in stop
  }

  /**
   * The URL split as intended: as SplitUrlAsWritten, but a URL without a
   * path gets an empty path and, with no ':' either, the default port.
   * The host holds neither '/' nor ':' and the port no '/'.
   */
  function SplitUrl(url: string): (r: Url)
    requires 7 <= |url|
    ensures NoneOf(r.host, {'/', ':'}) && NoneOf(r.port, {'/'})
    ensures !r.portGiven ==> r.port == DefaultPort(url)
  {
    var hs := HostStart(url);
    var he := ScanUntil(url, hs, {'/', ':'});
    if he == |url| then Url(url[hs..], DefaultPort(url), "", false, false)
    else if url[he] == '/' then Url(url[hs..he], DefaultPort(url), url[he + 1..], false, true)
    else
      var pe := ScanUntil(url, he + 1, {'/'});
      if pe == |url| then Url(url[hs..he], url[he + 1..], "", true, false)
      else Url(url[hs..he], url[he + 1..pe], url[pe + 1..], true, true)
  }

  /** Cutting url[a..] at an index b that holds the separator c. */
  lemma CutAt(url: string, a: nat, b: nat, c: char)
    requires a <= b < |url| && url[b] == c
    ensures url[a..] == url[a..b] + [c] + url[b + 1..]
  {
  }

  /** Joining the parts of a split URL gives the URL back. */
  lemma SplitUrlJoins(url: string)
    requires 7 <= |url|
    ensures url == url[..HostStart(url)] + JoinUrl(SplitUrl(url))
  {
    var hs := HostStart(url);
    var he := ScanUntil(url, hs, {'/', ':'});
    if he == |url| {
      assert JoinUrl(SplitUrl(url)) == url[hs..];
    } else if url[he] == '/' {
      JoinsWithPath(url, hs, he);
    } else {
      JoinsWithPort(url, hs, he, ScanUntil(url, he + 1, {'/'}));
    }
    assert url == url[..hs] + url[hs..];
  }

  lemma JoinsWithPath(url: string, hs: nat, he: nat)
    requires 7 <= |url| && hs == HostStart(url) && he == ScanUntil(url, hs, {'/', ':'})
    requires he < |url| && url[he] == '/'
    ensures JoinUrl(SplitUrl(url)) == url[hs..]
  {
    var r := SplitUrl(url);
    assert r == Url(url[hs..he], DefaultPort(url), url[he + 1..], false, true);
    CutAt(url, hs, he, '/');
  }

  lemma JoinsWithPort(url: string, hs: nat, he: nat, pe: nat)
    requires 7 <= |url| && hs == HostStart(url) && he == ScanUntil(url, hs, {'/', ':'})
    requires he < |url| && url[he] != '/' && pe == ScanUntil(url, he + 1, {'/'})
    ensures JoinUrl(SplitUrl(url)) == url[hs..]
  {
    assert url[he] == ':';
    if pe == |url| {
      JoinsWithPortOnly(url, hs, he);
    } else {
      JoinsWithPortAndPath(url, hs, he, pe);
    }
  }

  lemma JoinsWithPortOnly(url: string, hs: nat, he: nat)
    requires 7 <= |url| && hs == HostStart(url) && he == ScanUntil(url, hs, {'/', ':'})
    requires he < |url| && url[he] == ':' && ScanUntil(url, he + 1, {'/'}) == |url|
    ensures JoinUrl(SplitUrl(url)) == url[hs..]
  {
    var r := SplitUrl(url);
    assert r == Url(url[hs..he], url[he + 1..], "", true, false);
    assert JoinUrl(r) == url[hs..he] + [':'] + url[he + 1..];
    CutAt(url, hs, he, ':');
  }

  lemma JoinsWithPortAndPath(url: string, hs: nat, he: nat, pe: nat)
    requires 7 <= |url| && hs == HostStart(url) && he == ScanUntil(url, hs, {'/', ':'})
    requires he < |url| && url[he] == ':' && pe == ScanUntil(url, he + 1, {'/'}) && pe < |url|
    ensures JoinUrl(SplitUrl(url)) == url[hs..]
  {
    var r := SplitUrl(url);
    assert r == Url(url[hs..he], url[he + 1..pe], url[pe + 1..], true, true);
    assert JoinUrl(r) == url[hs..he] + ([':'] + url[he + 1..pe]) + (['/'] + url[pe + 1..]);
    CutTwice(url, hs, he, pe);
  }

  /** Cutting s[a..] at b and c. */
  lemma CutTwice(s: string, a: nat, b: nat, c: nat)
    requires a <= b < c < |s|
    ensures s[a..] == s[a..b] + ([s[b]] + s[b + 1..c]) + ([s[c]] + s[c + 1..])
  {
    assert s[a..] == s[a..b] + s[b..c] + s[c..];
  }

  /** The intended split agrees with http_get wherever http_get stays inside
      the string, and http_get leaves it exactly for URLs without a path. */
  lemma SplitUrlAgrees(url: string)
    requires 7 <= |url|
    ensures SplitUrlAsWritten(url).ReadsPastEnd? <==> !SplitUrl(url).pathGiven
    ensures match SplitUrlAsWritten(url)
      case Scanned(hs, he, ps, pe, path, defaulted) =>
        var u := SplitUrl(url);
        path <= |url| && u.host == url[hs..he] && u.path == url[path..] &&
        u.port == (if defaulted then DefaultPort(url) else url[ps..pe])
      case ReadsPastEnd(i) => i == |url| + 1
  {
  }
}
