/** What the identity resolvers see of a connection: request headers, the
    peer address, and the attribute map a WebSocket session carries. */
module Http {
  import opened Lang

  /** An HTTP request: the first value of each header present, keyed by the
      header name exactly as the code asks for it, and the peer's address as
      text. */
  datatype Request = Request(headers: map<string, string>, remoteAddr: string)

  /** `getHeader(name)` / `getHeaders().getFirst(name)`: null when absent. */
  function Header(request: Request, name: string): (v: Option<string>)
    ensures v.Some? <==> name in request.headers
    ensures name in request.headers ==> v == Some(request.headers[name])
  {
    if name in request.headers then Some(request.headers[name]) else None
  }

  /** A header value both resolvers accept: present, non-empty, and not
      "unknown" in any letter case. */
  predicate UsableHeader(v: Option<string>) {
    v.Some? && v.value != "" && !IsUnknownIgnoreCase(v.value)
  }

  /** A value stored in a session's or HTTP session's attribute map: a
      string, or a Long, which also stands for any other non-string
      object. */
  datatype AttrValue = AttrString(s: string) | AttrLong(n: int)

  type Attributes = map<string, AttrValue>

  const Loopback: string := "127.0.0.1"

  /** The IPv6 loopback test both resolvers apply: plain substring search, so
      any address containing "::1" (such as "fe80::1") matches too. */
  predicate LooksLikeIpv6Loopback(ip: string) {
    Contains(ip, "0:0:0:0:0:0:0:1") || Contains(ip, "::1")
  }

  /** Rewrites an address that looks like the IPv6 loopback to 127.0.0.1 and
      leaves every other address alone. */
  function NormalizeLoopback(ip: string): string {
    if LooksLikeIpv6Loopback(ip) then Loopback else ip
  }

  /** Every address that ends in "::1", link-local ones included, is
      normalised to 127.0.0.1. */
  lemma {:induction false} AnyColonColonOneIsLoopback(prefix: string)
    ensures NormalizeLoopback(prefix + "::1") == Loopback
  {
    ContainsInfix(prefix, "::1", "");
    assert prefix + "::1" + "" == prefix + "::1";
  }
}
