/** The servlet-side address resolver (`IpUtil.getClientIpAddress`): the first
    usable proxy header wins, then the peer address; a comma-separated list is
    cut to its first entry; an IPv6-looking loopback becomes 127.0.0.1. */
module IpUtil {
  import opened Lang
  import opened Http

  /** The proxy headers, in the order they are tried. */
  const HeaderNames: seq<string> := [
    "X-Forwarded-For",
    "X-Real-IP",
    "Proxy-Client-IP",
    "WL-Proxy-Client-IP",
    "HTTP_CLIENT_IP",
    "HTTP_X_FORWARDED_FOR"
  ]

  /** The value of the first header in `names` that is usable, if any. */
  function FirstUsableHeader(request: Request, names: seq<string>): (r: Option<string>)
    ensures r.Some? ==> exists k :: 0 <= k < |names| && r == Header(request, names[k]) &&
                                    forall j :: 0 <= j < k ==> !UsableHeader(Header(request, names[j]))
    ensures r.Some? ==> UsableHeader(r)
    ensures r.None? <==> forall j :: 0 <= j < |names| ==> !UsableHeader(Header(request, names[j]))
  {
    if names == [] then None
    else if UsableHeader(Header(request, names[0])) then Header(request, names[0])
    else
      var r := FirstUsableHeader(request, names[1..]);
      assert forall j :: 1 <= j < |names| ==> names[1..][j - 1] == names[j];
      r
  }

  /** The address as the servlet resolver computes it: `ArrayIndexOutOfBounds`
      when the chosen value is nothing but commas. */
  function ClientIpAddress(request: Request): Result<string> {
    var chosen := FirstUsableHeader(request, HeaderNames);
    var ip := if chosen.Some? then chosen.value else request.remoteAddr;
    if Contains(ip, ",") then
      var ips := Split(ip, ',');
      if ips == [] then Thrown(ArrayIndexOutOfBounds)
      else Ok(NormalizeLoopback(Trim(ips[0])))
    else Ok(NormalizeLoopback(ip))
  }

  /** `getClientIpAddress`: scans the headers in order, stopping at the first
      usable one, then falls back, cuts and normalises. */
  method GetClientIpAddress(request: Request) returns (r: Result<string>)
    ensures r == ClientIpAddress(request)
  {
    var ip: Option<string> := None;
    var i := 0;
    while i < |HeaderNames|
      invariant 0 <= i <= |HeaderNames|
      invariant ip.None?
      invariant FirstUsableHeader(request, HeaderNames) == FirstUsableHeader(request, HeaderNames[i..])
    {
      var headerValue := Header(request, HeaderNames[i]);
      if headerValue.Some? && headerValue.value != "" && !IsUnknownIgnoreCase(headerValue.value) {
        ip := headerValue;
        break;
      }
      assert HeaderNames[i..][1..] == HeaderNames[i + 1..];
      i := i + 1;
    }
    if ip.None? || ip.value == "" || IsUnknownIgnoreCase(ip.value) {
      ip := Some(request.remoteAddr);
    }
    var value := ip.value;
    if Contains(value, ",") {
      var ips := Split(value, ',');
      if |ips| == 0 {
        return Thrown(ArrayIndexOutOfBounds);
      }
      value := Trim(ips[0]);
    }
    if LooksLikeIpv6Loopback(value) {
      value := Loopback;
    }
    r := Ok(value);
  }

  // ------------------------------------------------------------------ properties

  /** The first usable header in priority order decides the address; earlier
      headers that are absent, empty or "unknown" are skipped. */
  lemma {:induction false} FirstUsableHeaderWins(request: Request, k: nat)
    requires k < |HeaderNames| && UsableHeader(Header(request, HeaderNames[k]))
    requires forall j :: 0 <= j < k ==> !UsableHeader(Header(request, HeaderNames[j]))
    ensures FirstUsableHeader(request, HeaderNames) == Header(request, HeaderNames[k])
  {
  }

  /** With no usable header the peer address is used, normalised. */
  lemma {:induction false} NoHeaderUsesRemoteAddr(request: Request)
    requires forall j :: 0 <= j < |HeaderNames| ==> !UsableHeader(Header(request, HeaderNames[j]))
    requires !Contains(request.remoteAddr, ",")
    ensures ClientIpAddress(request) == Ok(NormalizeLoopback(request.remoteAddr))
  {
  }

  /** A chosen value without a comma is returned as it is, surrounding spaces
      included, unless it looks like the IPv6 loopback. */
  lemma {:induction false} SingleValueIsNotTrimmed(request: Request, v: string)
    requires FirstUsableHeader(request, HeaderNames) == Some(v)
    requires !Contains(v, ",") && !LooksLikeIpv6Loopback(v)
    ensures ClientIpAddress(request) == Ok(v)
  {
  }

  /** A comma-separated value is cut to its first piece, trimmed, even when
      that piece is empty; only a value made of nothing but commas throws. */
  lemma {:induction false} CommaListTakesFirstPiece(request: Request, first: string, rest: string)
    requires FirstUsableHeader(request, HeaderNames) == Some(first + "," + rest)
    requires ',' !in first && !LooksLikeIpv6Loopback(Trim(first))
    requires first != "" || exists i :: 0 <= i < |rest| && rest[i] != ','
    ensures ClientIpAddress(request) == Ok(Trim(first))
  {
    var v := first + "," + rest;
    assert v == first + [','] + rest;
    ContainsInfix(first, ",", rest);
    SplitFirstPiece(first, ',', rest);
    SplitEmptyIff(v, ',');
    if first == "" {
      var i :| 0 <= i < |rest| && rest[i] != ',';
      assert v[|first| + 1 + i] == rest[i];
    } else {
      assert v[0] == first[0];
    }
  }

  /** A value made only of commas splits into an empty array, and reading its
      first element throws. */
  lemma {:induction false} OnlyCommasThrows(request: Request, v: string)
    requires FirstUsableHeader(request, HeaderNames) == Some(v)
    requires v != "" && forall i :: 0 <= i < |v| ==> v[i] == ','
    ensures ClientIpAddress(request) == Thrown(ArrayIndexOutOfBounds)
  {
    assert v == [] + "," + v[1..];
    ContainsInfix([], ",", v[1..]);
    SplitOnlySeparators(v, ',');
  }

  /** The only rewriting besides the comma cut is the loopback rule: a result
      other than 127.0.0.1 is the chosen value or its trimmed first piece. */
  lemma {:induction false} OnlyLoopbackIsRewritten(request: Request)
    requires ClientIpAddress(request).Ok? && ClientIpAddress(request).value != Loopback
    ensures var chosen := FirstUsableHeader(request, HeaderNames);
      var ip := if chosen.Some? then chosen.value else request.remoteAddr;
      var r := ClientIpAddress(request).value;
      !LooksLikeIpv6Loopback(r) && (r == ip || (Contains(ip, ",") && r == Trim(Split(ip, ',')[0])))
  {
  }
}
