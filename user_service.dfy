/** The user-name rules of the HTTP side: the client's address comes from the
    servlet resolver, and a local address is shown as "本机用户" ("this
    machine's user"). */
module UserService {
  import opened Lang
  import opened Http
  import IpUtil

  const LocalUserName: string := "本机用户"

  /** `formatUserName`: the local placeholder for a null, "127.0.0.1" or
      "localhost" address, the address itself otherwise. */
  function FormatUserName(ip: Option<string>): string {
    if ip == Some(Loopback) || ip == Some("localhost") || ip.None? then LocalUserName else ip.value
  }

  /** The name is the placeholder exactly for the three local forms (or for an
      address that already is the placeholder); every other address is shown
      unchanged, and formatting is idempotent. */
  lemma {:induction false} FormatUserNameCases(ip: Option<string>)
    ensures FormatUserName(ip) == LocalUserName <==>
      ip.None? || ip.value in {Loopback, "localhost", LocalUserName}
    ensures ip.Some? && ip.value !in {Loopback, "localhost"} ==> FormatUserName(ip) == ip.value
    ensures FormatUserName(Some(FormatUserName(ip))) == FormatUserName(ip)
  {
  }

  /** `getClientIp`: exactly the servlet resolver's answer. */
  method GetClientIp(request: Request) returns (r: Result<string>)
    ensures r == IpUtil.ClientIpAddress(request)
  {
    r := IpUtil.GetClientIpAddress(request);
  }

  /** `getUserName`: the formatted resolved address; an exception from the
      resolver propagates. */
  method GetUserName(request: Request) returns (r: Result<string>)
    ensures IpUtil.ClientIpAddress(request).Thrown? ==> r == Thrown(IpUtil.ClientIpAddress(request).ex)
    ensures IpUtil.ClientIpAddress(request).Ok? ==>
      r == Ok(FormatUserName(Some(IpUtil.ClientIpAddress(request).value)))
  {
    var ip := GetClientIp(request);
    if ip.Thrown? {
      return Thrown(ip.ex);
    }
    r := Ok(FormatUserName(Some(ip.value)));
  }
}
