/** The WebSocket handshake interceptor: resolves the client's address from
    the upgrade request (its own variant of the header scan) and stores it,
    with the handshake time and an optional custom user name, in the
    attribute map the new session will carry. */
module HandshakeInterceptor {
  import opened Lang
  import opened Http

  /** An X-Forwarded-For entry the interceptor accepts: after trimming it is
      non-empty and not "unknown" in any letter case. */
  predicate UsableEntry(entry: string) {
    !IsBlank(entry) && !IsUnknownIgnoreCase(Trim(entry))
  }

  /** Where the scan of X-Forwarded-For entries stops: the index of the first
      usable entry at or after `from`, or `|entries|` when there is none. */
  function FirstUsableIndex(entries: seq<string>, from: nat): (k: nat)
    requires from <= |entries|
    ensures from <= k <= |entries|
    ensures k < |entries| ==> UsableEntry(entries[k])
    ensures forall j :: from <= j < k ==> !UsableEntry(entries[j])
    decreases |entries| - from
  {
    if from == |entries| || UsableEntry(entries[from]) then from
    else FirstUsableIndex(entries, from + 1)
  }

  /** The first usable X-Forwarded-For entry, trimmed. */
  function FirstUsableEntry(entries: seq<string>): (r: Option<string>)
    ensures r.None? <==> forall j :: 0 <= j < |entries| ==> !UsableEntry(entries[j])
  {
    var k := FirstUsableIndex(entries, 0);
    if k < |entries| then Some(Trim(entries[k])) else None
  }

  /** What X-Forwarded-For contributes: its first usable entry, when the
      header itself is usable. */
  function ForwardedFor(request: Request): Option<string> {
    var xff := Header(request, "X-Forwarded-For");
    if UsableHeader(xff) then FirstUsableEntry(Split(xff.value, ',')) else None
  }

  /** The address before the loopback rule: X-Forwarded-For, then X-Real-IP,
      Proxy-Client-IP and WL-Proxy-Client-IP (each trimmed), then the peer. */
  function Candidate(request: Request): string {
    var xff := ForwardedFor(request);
    var realIp := Header(request, "X-Real-IP");
    var proxy := Header(request, "Proxy-Client-IP");
    var wl := Header(request, "WL-Proxy-Client-IP");
    if xff.Some? then xff.value
    else if UsableHeader(realIp) then Trim(realIp.value)
    else if UsableHeader(proxy) then Trim(proxy.value)
    else if UsableHeader(wl) then Trim(wl.value)
    else request.remoteAddr
  }

  /** The private-range checks: they return the address unchanged, except that
      a four-part "172." address whose second part is not a decimal int makes
      `Integer.parseInt` throw. */
  function CheckPrivateRanges(ip: string): Result<string> {
    if StartsWith(ip, "192.168.") || StartsWith(ip, "10.") then Ok(ip)
    else if StartsWith(ip, "172.") && |Split(ip, '.')| == 4 && ParseInt(Split(ip, '.')[1]).Thrown? then
      Thrown(NumberFormat)
    else Ok(ip)
  }

  /** The address `getClientIpAddress` returns for a request. */
  function ClientIpAddress(request: Request): Result<string> {
    CheckPrivateRanges(NormalizeLoopback(Candidate(request)))
  }

  /** The loop of `getClientIpAddress` over the comma-separated
      X-Forwarded-For entries: it stops at the first usable one. */
  method ScanEntries(ips: seq<string>) returns (ip: Option<string>)
    ensures ip == FirstUsableEntry(ips)
  {
    ip := None;
    var i := 0;
    while i < |ips|
      invariant 0 <= i <= |ips|
      invariant ip.None?
      invariant forall j :: 0 <= j < i ==> !UsableEntry(ips[j])
    {
      if UsableEntry(ips[i]) {
        assert FirstUsableIndex(ips, 0) == i;
        ip := Some(Trim(ips[i]));
        break;
      }
      i := i + 1;
    }
    assert ip.None? ==> FirstUsableIndex(ips, 0) == |ips|;
  }

  /** `getClientIpAddress`: the header chain with its early exits. */
  method GetClientIpAddress(request: Request) returns (r: Result<string>)
    ensures r == ClientIpAddress(request)
  {
    var ip: Option<string> := None;

    var xForwardedFor := Header(request, "X-Forwarded-For");
    if xForwardedFor.Some? && xForwardedFor.value != "" && !IsUnknownIgnoreCase(xForwardedFor.value) {
      ip := ScanEntries(Split(xForwardedFor.value, ','));
    }
    assert ip == ForwardedFor(request);

    if ip.None? {
      var xRealIp := Header(request, "X-Real-IP");
      if xRealIp.Some? && xRealIp.value != "" && !IsUnknownIgnoreCase(xRealIp.value) {
        ip := Some(Trim(xRealIp.value));
      }
    }
    if ip.None? {
      var proxyClientIp := Header(request, "Proxy-Client-IP");
      if proxyClientIp.Some? && proxyClientIp.value != "" && !IsUnknownIgnoreCase(proxyClientIp.value) {
        ip := Some(Trim(proxyClientIp.value));
      }
    }
    if ip.None? {
      var wlProxyClientIp := Header(request, "WL-Proxy-Client-IP");
      if wlProxyClientIp.Some? && wlProxyClientIp.value != "" && !IsUnknownIgnoreCase(wlProxyClientIp.value) {
        ip := Some(Trim(wlProxyClientIp.value));
      }
    }
    if ip.None? {
      ip := Some(request.remoteAddr);
    }
    assert ip == Some(Candidate(request));
    var value := ip.value;

    if LooksLikeIpv6Loopback(value) {
      value := Loopback;
    }
    assert value == NormalizeLoopback(Candidate(request));
    if StartsWith(value, "192.168.") {
      return Ok(value);
    }
    if StartsWith(value, "10.") {
      return Ok(value);
    }
    if StartsWith(value, "172.") {
      var parts := Split(value, '.');
      if |parts| == 4 {
        var secondOctet := ParseInt(parts[1]);
        if secondOctet.Thrown? {
          return Thrown(secondOctet.ex);
        }
        if 16 <= secondOctet.value <= 31 {
          return Ok(value);
        }
      }
    }
    r := Ok(value);
  }

  /** `beforeHandshake`: lets the handshake proceed, after recording
      "clientIp", "handshakeTime" and, when it is a non-blank string, the
      HTTP session's "customUserName". `sessionUserName` is that HTTP session
      attribute: `None` when the request is not a servlet request, has no
      HTTP session, or the attribute is null, which all skip the step. A
      value that is not a string fails the `(String)` cast with
      `ClassCastException`, after the address and time were already stored.
      Resolving the address can throw too, before anything is stored. */
  method BeforeHandshake(request: Request, attributes: Attributes, now: int, sessionUserName: Option<AttrValue>)
    returns (proceed: Result<bool>, attributes': Attributes)
    ensures ClientIpAddress(request).Thrown? ==> proceed == Thrown(ClientIpAddress(request).ex) && attributes' == attributes
    ensures ClientIpAddress(request).Ok? ==>
      var stamped := attributes["clientIp" := AttrString(ClientIpAddress(request).value)]["handshakeTime" := AttrLong(now)];
      match sessionUserName
      case Some(AttrLong(_)) => proceed == Thrown(ClassCast) && attributes' == stamped
      case Some(AttrString(name)) =>
        && proceed == Ok(true)
        && attributes' == if IsBlank(name) then stamped else stamped["customUserName" := AttrString(name)]
      case None => proceed == Ok(true) && attributes' == stamped
  {
    var clientIp := GetClientIpAddress(request);
    if clientIp.Thrown? {
      return Thrown(clientIp.ex), attributes;
    }
    attributes' := attributes["clientIp" := AttrString(clientIp.value)];
    attributes' := attributes'["handshakeTime" := AttrLong(now)];
    if sessionUserName.Some? {
      if sessionUserName.value.AttrLong? {
        return Thrown(ClassCast), attributes';
      }
      var customUserName := sessionUserName.value.s;
      if !IsBlank(customUserName) {
        attributes' := attributes'["customUserName" := AttrString(customUserName)];
      }
    }
    proceed := Ok(true);
  }

  // ------------------------------------------------------------------ properties

  /** X-Forwarded-For wins when it has a usable entry: the first such entry,
      trimmed, regardless of the other headers. */
  lemma {:induction false} ForwardedForEntryWins(request: Request, k: nat)
    requires var xff := Header(request, "X-Forwarded-For");
      UsableHeader(xff) && k < |Split(xff.value, ',')| && UsableEntry(Split(xff.value, ',')[k]) &&
      forall j :: 0 <= j < k ==> !UsableEntry(Split(xff.value, ',')[j])
    ensures Candidate(request) == Trim(Split(Header(request, "X-Forwarded-For").value, ',')[k])
  {
  }

  /** Without a usable X-Forwarded-For entry, the next usable header in the
      order X-Real-IP, Proxy-Client-IP, WL-Proxy-Client-IP decides, trimmed;
      with none of them the peer address is used. */
  lemma {:induction false} FallbackOrder(request: Request)
    requires ForwardedFor(request).None?
    ensures var realIp := Header(request, "X-Real-IP");
      var proxy := Header(request, "Proxy-Client-IP");
      var wl := Header(request, "WL-Proxy-Client-IP");
      && (UsableHeader(realIp) ==> Candidate(request) == Trim(realIp.value))
      && (!UsableHeader(realIp) && UsableHeader(proxy) ==> Candidate(request) == Trim(proxy.value))
      && (!UsableHeader(realIp) && !UsableHeader(proxy) && UsableHeader(wl) ==> Candidate(request) == Trim(wl.value))
      && (!UsableHeader(realIp) && !UsableHeader(proxy) && !UsableHeader(wl) ==> Candidate(request) == request.remoteAddr)
  {
  }

  /** An X-Real-IP made only of spaces is accepted, trims to "", and stops
      every later fallback: the address resolves to the empty string. */
  lemma {:induction false} BlankRealIpResolvesToEmpty(request: Request)
    requires ForwardedFor(request).None?
    requires var realIp := Header(request, "X-Real-IP");
      realIp.Some? && realIp.value != "" && forall i :: 0 <= i < |realIp.value| ==> realIp.value[i] == ' '
    ensures ClientIpAddress(request) == Ok("")
  {
    var realIp := Header(request, "X-Real-IP").value;
    BlankIffAllTrimmable(realIp);
    assert !IsUnknownIgnoreCase(realIp) by {
      if |realIp| == 7 { assert !FoldsTo(realIp[0], 'u'); }
    }
    assert Candidate(request) == "";
    ContainsIff("", "0:0:0:0:0:0:0:1");
    ContainsIff("", "::1");
  }

  /** Apart from the loopback rule the address is returned unchanged, private
      ranges included; the only failure is the "172." parse. */
  lemma {:induction false} ResultIsNormalizedCandidate(request: Request)
    ensures var ip := NormalizeLoopback(Candidate(request));
      && (ClientIpAddress(request).Ok? ==> ClientIpAddress(request).value == ip)
      && (ClientIpAddress(request).Thrown? <==>
            StartsWith(ip, "172.") && |Split(ip, '.')| == 4 && ParseInt(Split(ip, '.')[1]).Thrown?)
  {
    PrivateRangesKeepAddress(NormalizeLoopback(Candidate(request)));
  }

  /** The range checks never change an address, and throw exactly for a
      four-part "172." address with a non-numeric second part: the "10." and
      "192.168." prefixes exclude "172.". */
  lemma {:induction false} PrivateRangesKeepAddress(ip: string)
    ensures CheckPrivateRanges(ip).Ok? ==> CheckPrivateRanges(ip).value == ip
    ensures CheckPrivateRanges(ip).Thrown? <==>
      StartsWith(ip, "172.") && |Split(ip, '.')| == 4 && ParseInt(Split(ip, '.')[1]).Thrown?
  {
    if StartsWith(ip, "192.168.") || StartsWith(ip, "10.") {
      assert !StartsWith(ip, "172.") by {
        assert ip[0] == '1';
        if StartsWith(ip, "10.") { assert ip[1] == '0'; } else { assert ip[1] == '9'; }
      }
    }
  }

  /** Four dot-free parts joined by dots split back into those parts. */
  lemma {:induction false} SplitFourParts(a: string, b: string, c: string, d: string)
    requires '.' !in a && '.' !in b && '.' !in c && '.' !in d && d != ""
    ensures Split(a + ['.'] + (b + ['.'] + (c + ['.'] + d)), '.') == [a, b, c, d]
  {
    var ps := [a, b, c, d];
    assert Join(ps[3..], '.') == d;
    assert Join(ps[2..], '.') == c + ['.'] + d;
    assert Join(ps[1..], '.') == b + ['.'] + (c + ['.'] + d);
    assert Join(ps, '.') == a + ['.'] + (b + ['.'] + (c + ['.'] + d));
    SplitJoin(ps, '.');
  }

  /** How an address "172.b.c.d" is classified: neither 10.x nor 192.168.x,
      but 172.x, in four parts. */
  lemma {:induction false} OneSevenTwoShape(b: string, c: string, d: string)
    requires '.' !in b && '.' !in c && '.' !in d && d != ""
    ensures var ip := "172." + b + "." + c + "." + d;
      && !StartsWith(ip, "192.168.") && !StartsWith(ip, "10.") && StartsWith(ip, "172.")
      && Split(ip, '.') == ["172", b, c, d]
  {
    var ip := "172." + b + "." + c + "." + d;
    assert ip == "172" + ['.'] + (b + ['.'] + (c + ['.'] + d));
    SplitFourParts("172", b, c, d);
    assert ip[0] == '1' && ip[1] == '7';
    assert !StartsWith(ip, "10.") by { assert ip[1] != "10."[1]; }
    assert !StartsWith(ip, "192.168.") by { assert ip[1] != "192.168."[1]; }
    assert StartsWith(ip, "172.") by { assert ip[..4] == "172."; }
  }

  /** A "172." address whose second part is not a number makes the handshake
      fail with `NumberFormatException`. */
  lemma {:induction false} NonNumericSecondOctetThrows(request: Request, b: string, c: string, d: string)
    requires Candidate(request) == "172." + b + "." + c + "." + d
    requires '.' !in b && '.' !in c && '.' !in d && d != ""
    requires ParseInt(b).Thrown?
    requires !LooksLikeIpv6Loopback(Candidate(request))
    ensures ClientIpAddress(request) == Thrown(NumberFormat)
  {
    OneSevenTwoShape(b, c, d);
  }

  /** A "172." address whose second part is a number, written in any script
      of decimal digits, passes the range checks unchanged. */
  lemma {:induction false} NumericSecondOctetKeepsAddress(request: Request, b: string, c: string, d: string)
    requires Candidate(request) == "172." + b + "." + c + "." + d
    requires '.' !in b && '.' !in c && '.' !in d && d != ""
    requires ParseInt(b).Ok?
    requires !LooksLikeIpv6Loopback(Candidate(request))
    ensures ClientIpAddress(request) == Ok(Candidate(request))
  {
    OneSevenTwoShape(b, c, d);
  }

  /** Fullwidth digits are numbers to `Integer.parseInt`: the second part of
      "172.１６.0.1" reads as 16, so such an address is accepted as it is. */
  lemma {:induction false} FullwidthOctetIsNumeric()
    ensures ParseInt("\U{FF11}\U{FF16}") == Ok(16)
    ensures ParseInt("\U{FF11}\U{FF16}") == ParseInt("16")
  {
    var s := "\U{FF11}\U{FF16}";
    assert IsDigit(s[0]) && DigitOf(s[0]) == 1;
    assert IsDigit(s[1]) && DigitOf(s[1]) == 6;
    assert s[..1] == [s[0]];
    assert DigitsValue(s[..1]) == 1;
    assert DigitsValue("16"[..1]) == 1;
  }
}
