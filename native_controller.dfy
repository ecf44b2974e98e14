/** The native WebSocket endpoint: the registry of open sessions, the replay
    a new session receives, broadcasting, the client-info rules that fix a
    session's address and name, and the dispatch of inbound "sendMessage"
    and "recallMessage" frames. Transport is sequential: each session records
    the events it was sent, and a broken connection makes every send to it
    throw. */
module NativeController {
  import opened Lang
  import opened Http
  import opened MessageEntity
  import opened MessageRepository
  import opened MessageService
  import opened MessageDto
  import opened FileStore

  /** A value inside a parsed JSON object. Integral numbers are `JInt`; any
      other non-string value is `JOther` with its `toString()` text. */
  datatype Json = JString(s: string) | JInt(n: int) | JNull | JOther(text: string)

  /** An inbound text frame: a JSON object, or text that does not parse as
      one. */
  datatype Inbound = Payload(fields: map<string, Json>) | Unparseable

  /** A frame the server sends to a browser. */
  datatype Event =
    | ChatMessageEvent(dto: ChatMessageDto)
    | UserCount(count: nat)
    | UserInfoUpdate(ip: string, name: string)

  const UnknownUserName: string := "未知用户"
  const EmergencyUserName: string := "紧急用户"

  /** How many recent messages a new session is sent. */
  const ReplayLimit: PageSize := 30

  // ------------------------------------------------------------ payload access

  /** `payload.get(key)`: an absent key reads as null. */
  function Field(payload: map<string, Json>, key: string): Json {
    if key in payload then payload[key] else JNull
  }

  /** `(String) payload.get(key)`. */
  function StringField(payload: map<string, Json>, key: string): (r: Result<Option<string>>)
    ensures r.Thrown? <==> Field(payload, key).JInt? || Field(payload, key).JOther?
    ensures r.Thrown? ==> r.ex == ClassCast
    ensures r == Ok(None) <==> Field(payload, key) == JNull
    ensures Field(payload, key).JString? ==> r == Ok(Some(Field(payload, key).s))
  {
    match Field(payload, key)
    case JString(s) => Ok(Some(s))
    case JNull => Ok(None)
    case _ => Thrown(ClassCast)
  }

  /** `value.toString()`. */
  function Text(j: Json): Result<string> {
    match j
    case JString(s) => Ok(s)
    case JInt(n) => Ok(IntText(n))
    case JNull => Thrown(NullPointer)
    case JOther(t) => Ok(t)
  }

  /** `Long.valueOf(payload.get(key).toString())`. */
  function LongField(payload: map<string, Json>, key: string): (r: Result<int>)
    ensures Field(payload, key) == JNull ==> r == Thrown(NullPointer)
    ensures Field(payload, key).JString? ==> r == ParseLong(Field(payload, key).s)
    ensures Field(payload, key).JOther? ==> r == ParseLong(Field(payload, key).text)
    ensures r.Ok? ==> LongMin <= r.value <= LongMax
  {
    match Text(Field(payload, key))
    case Thrown(e) => Thrown(e)
    case Ok(t) => ParseLong(t)
  }

  /** `payload.get(key) != null ? Long.valueOf(payload.get(key).toString()) : null`. */
  function OptionalLongField(payload: map<string, Json>, key: string): (r: Result<Option<int>>)
    ensures r == Ok(None) <==> Field(payload, key) == JNull
    ensures Field(payload, key) != JNull ==>
      (r.Thrown? <==> LongField(payload, key).Thrown?) &&
      (r.Ok? ==> r.value == Some(LongField(payload, key).value))
  {
    if Field(payload, key) == JNull then Ok(None)
    else
      match LongField(payload, key)
      case Thrown(e) => Thrown(e)
      case Ok(n) => Ok(Some(n))
  }

  /** A JSON number in the range of a Java long is read back as itself. */
  lemma {:induction false} NumericFieldRoundTrip(payload: map<string, Json>, key: string, n: int)
    requires Field(payload, key) == JInt(n) && LongMin <= n <= LongMax
    ensures LongField(payload, key) == Ok(n)
    ensures OptionalLongField(payload, key) == Ok(Some(n))
  {
    ParseDecimalIntText(n, LongMin, LongMax);
  }

  // ------------------------------------------------------- session attributes

  /** `(String) attributes.get(key)`. */
  function StringAttribute(attributes: Attributes, key: string): (r: Result<Option<string>>)
    ensures r.Thrown? ==> r.ex == ClassCast
    ensures r.Thrown? <==> key in attributes && attributes[key].AttrLong?
    ensures r == Ok(None) <==> key !in attributes
    ensures key in attributes && attributes[key].AttrString? ==> r == Ok(Some(attributes[key].s))
  {
    if key !in attributes then Ok(None)
    else
      match attributes[key]
      case AttrString(s) => Ok(Some(s))
      case AttrLong(_) => Thrown(ClassCast)
  }

  /** `getClientIp`: the session's stored address, or 127.0.0.1 when it is
      null or empty. */
  function ClientIp(attributes: Attributes): (r: Result<string>)
    ensures r.Ok? ==> r.value != ""
    ensures r.Ok? && r.value != Loopback ==> "clientIp" in attributes && attributes["clientIp"] == AttrString(r.value)
    ensures r.Thrown? <==> "clientIp" in attributes && attributes["clientIp"].AttrLong?
    ensures "clientIp" in attributes && attributes["clientIp"].AttrString? && attributes["clientIp"].s != "" ==>
      r == Ok(attributes["clientIp"].s)
    ensures "clientIp" !in attributes || attributes["clientIp"] == AttrString("") ==> r == Ok(Loopback)
  {
    match StringAttribute(attributes, "clientIp")
    case Thrown(e) => Thrown(e)
    case Ok(v) => Ok(if v.Some? && v.value != "" then v.value else Loopback)
  }

  /** `getClientName`: the session's stored name, or "未知用户" ("unknown
      user") when it is null or empty. */
  function ClientName(attributes: Attributes): (r: Result<string>)
    ensures r.Ok? ==> r.value != ""
    ensures r.Ok? && r.value != UnknownUserName ==> "clientName" in attributes && attributes["clientName"] == AttrString(r.value)
    ensures r.Thrown? <==> "clientName" in attributes && attributes["clientName"].AttrLong?
    ensures "clientName" in attributes && attributes["clientName"].AttrString? && attributes["clientName"].s != "" ==>
      r == Ok(attributes["clientName"].s)
    ensures "clientName" !in attributes || attributes["clientName"] == AttrString("") ==> r == Ok(UnknownUserName)
  {
    match StringAttribute(attributes, "clientName")
    case Thrown(e) => Thrown(e)
    case Ok(v) => Ok(if v.Some? && v.value != "" then v.value else UnknownUserName)
  }

  // -------------------------------------------------------------- client info

  /** The address and name a session is known by. */
  datatype ClientInfo = ClientInfo(ip: string, name: string)

  /** `ip + "|" + name`. */
  function InfoText(info: ClientInfo): string {
    info.ip + "|" + info.name
  }

  /** The name used when the URI does not supply one: "用户(ip)" ("user(ip)"). */
  function DefaultUserName(ip: string): string {
    "用户(" + ip + ")"
  }

  /** Where the `client=` parameter starts and where its value ends: at the
      next "&" or at the end of the URI. */
  lemma {:induction false} ClientParamBounds(uri: string)
    requires Contains(uri, "client=")
    ensures var start := IndexOf(uri, "client=");
      var amp := IndexOfFrom(uri, "&", start);
      0 <= start && start + 7 <= |uri| && (amp == -1 || start + 7 <= amp < |uri|)
  {
    var start := IndexOf(uri, "client=");
    assert uri[start..start + 7] == "client=";
    forall j | start <= j < start + 7
      ensures !MatchesAt(uri, "&", j)
    {
      assert uri[j] == "client="[j - start];
      assert uri[j..j + 1][0] == uri[j];
    }
  }

  /** The raw value of the `client=` parameter. */
  function ClientParam(uri: string): string
    requires Contains(uri, "client=")
  {
    ClientParamBounds(uri);
    var start := IndexOf(uri, "client=");
    var amp := IndexOfFrom(uri, "&", start);
    var end := if amp == -1 then |uri| else amp;
    uri[start + 7..end]
  }

  /** The user name from the URI: the third "|"-separated field of the
      URL-decoded `client=` value; the default name when there is no such
      parameter, decoding throws, or there are fewer than three fields. */
  function UserNameFromUri(uri: string, ip: string, decode: string -> Result<string>): string {
    if !Contains(uri, "client=") then DefaultUserName(ip)
    else
      match decode(ClientParam(uri))
      case Thrown(_) => DefaultUserName(ip)
      case Ok(clientInfo) =>
        var parts := Split(clientInfo, '|');
        if |parts| >= 3 then parts[2] else DefaultUserName(ip)
  }

  /** What `extractClientInfo` settles on, given the "clientIp" attribute the
      handshake stored and the session URI. A usable address (a non-empty
      string other than exactly "unknown") is kept, with the name from the
      URI. Without one the fallback identity is used. A non-string attribute
      or a missing URI throws inside the method, which then uses the
      emergency identity. */
  function ResolveClientInfo(stored: Option<AttrValue>, uri: Option<string>, decode: string -> Result<string>): (info: ClientInfo)
    ensures info.ip != ""
  {
    match stored
    case Some(AttrLong(_)) => ClientInfo(Loopback, EmergencyUserName)
    case Some(AttrString(ip)) =>
      if ip == "" || ip == "unknown" then ClientInfo(Loopback, UnknownUserName)
      else if uri.None? then ClientInfo(Loopback, EmergencyUserName)
      else ClientInfo(ip, UserNameFromUri(uri.value, ip, decode))
    case None => ClientInfo(Loopback, UnknownUserName)
  }

  /** The "clientIp" attribute as `extractClientInfo` finds it. */
  function StoredClientIp(attributes: Attributes): Option<AttrValue> {
    if "clientIp" in attributes then Some(attributes["clientIp"]) else None
  }

  /** A stored address `extractClientInfo` keeps: non-empty and not exactly
      "unknown" (the comparison is case-sensitive). */
  predicate UsableStoredIp(ip: string) {
    ip != "" && ip != "unknown"
  }

  /** The three outcomes of `extractClientInfo`. A usable stored address is
      kept, with the name from the URI. A missing, empty or "unknown" one
      gives the fallback identity 127.0.0.1 / "未知用户". A non-string
      attribute, or a missing URI, throws inside the method's try, and the
      emergency identity 127.0.0.1 / "紧急用户" is used. Any other address
      than 127.0.0.1 therefore is the stored one. */
  lemma {:induction false} ClientInfoOutcomes(stored: Option<AttrValue>, uri: Option<string>, decode: string -> Result<string>)
    ensures var info := ResolveClientInfo(stored, uri, decode);
      && (stored.Some? && stored.value.AttrString? && UsableStoredIp(stored.value.s) && uri.Some? ==>
            info == ClientInfo(stored.value.s, UserNameFromUri(uri.value, stored.value.s, decode)))
      && (stored.None? || stored == Some(AttrString("")) || stored == Some(AttrString("unknown")) ==>
            info == ClientInfo(Loopback, UnknownUserName))
      && ((stored.Some? && stored.value.AttrLong?) ||
          (stored.Some? && stored.value.AttrString? && UsableStoredIp(stored.value.s) && uri.None?) ==>
            info == ClientInfo(Loopback, EmergencyUserName))
      && (info.ip != Loopback ==> stored == Some(AttrString(info.ip)) && UsableStoredIp(info.ip) && uri.Some?)
  {
  }

  /** The events `sendUserInfoUpdate` sends for a client-info text: one
      update when it splits on "|" into at least two fields. */
  function UserInfoEvents(clientInfo: string): seq<Event> {
    var parts := Split(clientInfo, '|');
    if |parts| >= 2 then [UserInfoUpdate(parts[0], parts[1])] else []
  }

  /** "client=" first occurs right after a prefix that does not contain it. */
  lemma {:induction false} ClientKeyAfterPrefix(pre: string, rest: string)
    requires !Contains(pre, "client=")
    ensures Contains(pre + "client=" + rest, "client=")
    ensures IndexOf(pre + "client=" + rest, "client=") == |pre|
  {
    var key := "client=";
    var uri := pre + key + rest;
    assert uri[|pre|..|pre| + 7] == key;
    assert MatchesAt(uri, key, |pre|);
    ContainsIff(pre, key);
    forall j | 0 <= j < |pre|
      ensures !MatchesAt(uri, key, j)
    {
      if j + 7 <= |pre| {
        assert pre[j..j + 7] == uri[j..j + 7];
        assert !MatchesAt(pre, key, j);
      } else {
        var k := j + 6 - |pre|;
        assert 0 <= k < 6;
        assert uri[j + 6] == key[k];
        assert key[k] != '=' by {
          assert key[..6] == "client";
          assert key[k] == key[..6][k];
        }
        assert uri[j..j + 7][6] != key[6];
      }
    }
    var r := IndexOfFrom(uri, key, 0);
    assert r != -1;
    assert r == |pre|;
  }

  /** The first "&" at or after `from` is at `to` when the text in between
      has none and `to` holds one; there is none when the text up to the end
      has none. */
  lemma {:induction false} FirstAmpersand(uri: string, from: nat, to: nat)
    requires from <= to <= |uri|
    requires forall j :: from <= j < to ==> uri[j] != '&'
    requires to == |uri| || uri[to] == '&'
    ensures IndexOfFrom(uri, "&", from) == if to == |uri| then -1 else to
  {
    forall j | from <= j < to
      ensures !MatchesAt(uri, "&", j)
    {
      assert uri[j..j + 1][0] == uri[j];
    }
    var r := IndexOfFrom(uri, "&", from);
    if to < |uri| {
      assert uri[to..to + 1] == "&";
      assert MatchesAt(uri, "&", to);
      assert r != -1;
      assert r == to;
    } else {
      assert r == -1;
    }
  }

  /** The `client=` value is exactly the text between "client=" and the next
      "&" (or the end), provided "client=" does not occur earlier. */
  lemma {:induction false} ClientParamExtraction(pre: string, param: string, suffix: string)
    requires !Contains(pre, "client=")
    requires '&' !in param
    requires suffix == "" || suffix[0] == '&'
    ensures Contains(pre + "client=" + param + suffix, "client=")
    ensures ClientParam(pre + "client=" + param + suffix) == param
  {
    var key := "client=";
    var uri := pre + key + param + suffix;
    assert uri == pre + key + (param + suffix);
    ClientKeyAfterPrefix(pre, param + suffix);
    var start := |pre|;
    var end := |pre| + 7 + |param|;
    forall j | start <= j < end
      ensures uri[j] != '&'
    {
      if j < start + 7 {
        assert uri[j] == key[j - start];
      } else {
        assert uri[j] == param[j - start - 7];
      }
    }
    if suffix != "" {
      assert uri[end] == suffix[0];
    }
    FirstAmpersand(uri, start, end);
    assert uri[start + 7..end] == param;
  }

  /** When the decoded `client=` value is a "|"-joined list of at least three
      fields, the user name is the third. */
  lemma {:induction false} UserNameIsThirdField(uri: string, ip: string, decode: string -> Result<string>, fields: seq<string>)
    requires Contains(uri, "client=")
    requires decode(ClientParam(uri)) == Ok(Join(fields, '|'))
    requires |fields| >= 3 && fields[|fields| - 1] != ""
    requires forall k :: 0 <= k < |fields| ==> '|' !in fields[k]
    ensures UserNameFromUri(uri, ip, decode) == fields[2]
  {
    SplitJoin(fields, '|');
  }

  /** The user-info update a session is sent carries its address and name,
      and is not sent at all when the name is empty. */
  lemma {:induction false} UserInfoUpdateCarriesIdentity(info: ClientInfo)
    requires '|' !in info.ip && '|' !in info.name
    ensures UserInfoEvents(InfoText(info)) ==
      if info.name != "" then [UserInfoUpdate(info.ip, info.name)] else []
  {
    var s := InfoText(info);
    assert s == Join([info.ip, info.name], '|');
    if info.name != "" {
      SplitJoin([info.ip, info.name], '|');
    } else {
      assert s == info.ip + ['|'] + "";
      SplitAllPrefix(info.ip, '|', "");
      assert IndexOfChar("", '|') < 0;
      assert SplitAll(s, '|') == [info.ip, ""];
      assert s[|info.ip|] == '|';
    }
  }

  /** The identity fixed when a session opens is the one its messages are
      sent under: `getClientIp` returns the resolved address, and
      `getClientName` the resolved name unless it is empty. */
  lemma {:induction false} SendUsesResolvedIdentity(attributes: Attributes, info: ClientInfo)
    requires info.ip != ""
    ensures var stored := attributes["clientIp" := AttrString(info.ip)]["clientName" := AttrString(info.name)];
      && ClientIp(stored) == Ok(info.ip)
      && ClientName(stored) == Ok(if info.name != "" then info.name else UnknownUserName)
  {
  }

  // --------------------------------------------------------------- dispatch

  /** Where `handleTextMessage` sends a frame. */
  datatype Route = ToSend(payload: map<string, Json>) | ToRecall(payload: map<string, Json>) | Ignored | Failed(ex: Exception)

  function RouteOf(inbound: Inbound): (r: Route)
    ensures r.ToSend? ==> inbound.Payload? && Field(inbound.fields, "type") == JString("sendMessage")
    ensures r.ToRecall? ==> inbound.Payload? && Field(inbound.fields, "type") == JString("recallMessage")
    ensures inbound.Payload? && Field(inbound.fields, "type") == JString("sendMessage") ==> r == ToSend(inbound.fields)
    ensures inbound.Payload? && Field(inbound.fields, "type") == JString("recallMessage") ==> r == ToRecall(inbound.fields)
    ensures inbound.Unparseable? ==> r == Failed(JsonProcessing)
    ensures r.Failed? <==> inbound.Unparseable? || (inbound.Payload? && StringField(inbound.fields, "type").Thrown?)
  {
    match inbound
    case Unparseable => Failed(JsonProcessing)
    case Payload(fields) =>
      match StringField(fields, "type")
      case Thrown(e) => Failed(e)
      case Ok(t) =>
        if t == Some("sendMessage") then ToSend(fields)
        else if t == Some("recallMessage") then ToRecall(fields)
        else Ignored
  }

  /** A "sendMessage" frame read against the sender's session. */
  datatype SendRequest = SendRequest(clientIp: string, clientName: string, content: Option<string>,
                                     messageType: MessageType, fileId: Option<int>)

  /** The reads `handleSendMessage` makes before saving, in its order; the
      first that throws decides the exception. */
  function ParseSendRequest(attributes: Attributes, payload: map<string, Json>): Result<SendRequest> {
    match ClientIp(attributes)
    case Thrown(e) => Thrown(e)
    case Ok(clientIp) =>
      match ClientName(attributes)
      case Thrown(e) => Thrown(e)
      case Ok(clientName) =>
        match StringField(payload, "content")
        case Thrown(e) => Thrown(e)
        case Ok(content) =>
          match StringField(payload, "messageType")
          case Thrown(e) => Thrown(e)
          case Ok(typeName) =>
            match OptionalLongField(payload, "fileId")
            case Thrown(e) => Thrown(e)
            case Ok(fileId) =>
              match ValueOf(typeName)
              case Thrown(e) => Thrown(e)
              case Ok(messageType) => Ok(SendRequest(clientIp, clientName, content, messageType, fileId))
  }

  /** The row a sent message is saved as; the address doubles as the unique
      id. */
  function SentRow(req: SendRequest, id: nat, now: int): MessageRow
    requires req.content.Some?
  {
    MessageRow(id, req.clientIp, Some(req.clientIp), req.clientName, req.content.value, now,
               req.messageType, false, None, req.fileId)
  }

  /** What a parsed "sendMessage" frame holds: the session's address and
      name as `getClientIp` / `getClientName` read them, and the frame's
      content, file id and type name. A frame without "messageType", whose
      other reads succeed, throws `NullPointerException` in `valueOf`. */
  lemma {:induction false} SendRequestFields(attributes: Attributes, payload: map<string, Json>)
    ensures var r := ParseSendRequest(attributes, payload);
      r.Ok? ==>
        && ClientIp(attributes) == Ok(r.value.clientIp) && ClientName(attributes) == Ok(r.value.clientName)
        && StringField(payload, "content") == Ok(r.value.content)
        && StringField(payload, "messageType") == Ok(Some(TypeName(r.value.messageType)))
        && OptionalLongField(payload, "fileId") == Ok(r.value.fileId)
    ensures (&& ClientIp(attributes).Ok? && ClientName(attributes).Ok? && StringField(payload, "content").Ok?
             && OptionalLongField(payload, "fileId").Ok? && Field(payload, "messageType") == JNull) ==>
      ParseSendRequest(attributes, payload) == Thrown(NullPointer)
  {
    var r := ParseSendRequest(attributes, payload);
    if r.Ok? {
      var name := StringField(payload, "messageType").value;
      ValueOfInvertsName(if name.Some? then name.value else "", r.value.messageType);
    }
  }

  /** A "recallMessage" frame. */
  datatype RecallRequest = RecallRequest(messageId: int, userIp: Option<string>)

  function ParseRecallRequest(payload: map<string, Json>): Result<RecallRequest> {
    match LongField(payload, "messageId")
    case Thrown(e) => Thrown(e)
    case Ok(messageId) =>
      match StringField(payload, "userIp")
      case Thrown(e) => Thrown(e)
      case Ok(userIp) => Ok(RecallRequest(messageId, userIp))
  }

  /** Recall authority comes from the frame itself: a frame naming a stored,
      non-recalled message and its sender's address recalls it, whichever
      session sends it. */
  lemma {:induction false} PayloadAddressAuthorisesRecall(rows: seq<MessageRow>, k: nat, payload: map<string, Json>, now: int)
    requires k < |rows| && !rows[k].recalled && rows[k].id <= LongMax
    requires Field(payload, "messageId") == JInt(rows[k].id)
    requires Field(payload, "userIp") == JString(rows[k].userIp)
    ensures ParseRecallRequest(payload) == Ok(RecallRequest(rows[k].id, Some(rows[k].userIp)))
    ensures RecallOutcome(rows, rows[k].id, Some(rows[k].userIp), now).Some?
  {
    NumericFieldRoundTrip(payload, "messageId", rows[k].id);
    RecallAuthorisation(rows, rows[k].id, Some(rows[k].userIp), now);
  }

  /** Removing a key keeps only values that were there, and shrinks the
      map by one when the key was present. */
  lemma {:induction false} RemoveKey<V>(m: map<string, V>, k: string)
    ensures (m - {k}).Values <= m.Values
    ensures |(m - {k}).Keys| == |m.Keys| - (if k in m then 1 else 0)
  {
    forall v | v in (m - {k}).Values
      ensures v in m.Values
    {
      var j :| j in (m - {k}) && (m - {k})[j] == v;
      assert m[j] == v;
    }
    assert (m - {k}).Keys == m.Keys - {k};
  }

  /** Updating a key adds at most the new value. */
  lemma {:induction false} UpdateKey<V>(m: map<string, V>, k: string, v: V)
    ensures m[k := v].Values <= m.Values + {v}
    ensures v in m[k := v].Values
  {
    forall w | w in m[k := v].Values
      ensures w in m.Values + {v}
    {
      var j :| j in m[k := v] && m[k := v][j] == w;
      if j != k {
        assert m[j] == w;
      }
    }
    assert m[k := v][k] == v;
  }

  /** Two sends in a row that each append their frames exactly when the
      session can take them append both, in order. */
  lemma AppendTwice<T>(before: seq<T>, middle: seq<T>, after: seq<T>, deliverable: bool, first: seq<T>, second: seq<T>)
    requires middle == before + (if deliverable then first else [])
    requires after == middle + (if deliverable then second else [])
    ensures after == before + (if deliverable then first + second else [])
  {
  }

  // ------------------------------------------------------------------ sessions

  /** A WebSocket connection. */
  class Session {
    const id: string
    const uri: Option<string>
    var open: bool
    /** Every send on this connection throws an IOException. */
    var broken: bool
    var attributes: Attributes
    /** The frames delivered so far. */
    var outbox: seq<Event>

    constructor (id: string, uri: Option<string>, attributes: Attributes)
      ensures this.id == id && this.uri == uri && this.attributes == attributes
      ensures open && !broken && outbox == []
    {
      this.id := id;
      this.uri := uri;
      this.attributes := attributes;
      open := true;
      broken := false;
      outbox := [];
    }

    /** A send to this session succeeds. */
    predicate Deliverable()
      reads this
    {
      open && !broken
    }

    /** `sendMessage`: delivers the frame, or throws (`ok` false) when the
        connection is closed or broken. */
    method Send(ev: Event) returns (ok: bool)
      modifies this
      ensures ok == old(Deliverable())
      ensures outbox == old(outbox) + (if ok then [ev] else [])
      ensures open == old(open) && broken == old(broken) && attributes == old(attributes)
    {
      ok := open && !broken;
      if ok {
        outbox := outbox + [ev];
      }
    }
  }

  // ---------------------------------------------------------------- controller

  class WebSocketNativeController {
    /** Open sessions by id. */
    var sessions: map<string, Session>
    const chatService: ChatService
    const fileService: FileService
    /** `URLDecoder.decode(s, "UTF-8")`. */
    const urlDecode: string -> Result<string>

    ghost predicate Valid()
      reads this, chatService, fileService
    {
      && (forall k :: k in sessions ==> sessions[k].id == k)
      && chatService.Valid()
      && fileService.Valid()
    }

    constructor (chatService: ChatService, fileService: FileService, urlDecode: string -> Result<string>)
      requires chatService.Valid() && fileService.Valid()
      ensures Valid() && sessions == map[]
      ensures this.chatService == chatService && this.fileService == fileService && this.urlDecode == urlDecode
    {
      sessions := map[];
      this.chatService := chatService;
      this.fileService := fileService;
      this.urlDecode := urlDecode;
    }

    /** `getConnectedCount`. */
    function GetConnectedCount(): (n: nat)
      reads this
      ensures n == |sessions.Keys|
    {
      |sessions|
    }

    /** The file attached to a message, when it has a file id and the record
        still exists. */
    function AttachedFile(fileId: Option<int>): Option<ChatFile>
      reads fileService
    {
      if fileId.Some? then fileService.GetFileById(fileId.value) else None
    }

    /** The frame for one replayed message. */
    function MessageEvent(m: MessageRow): Event
      reads fileService
    {
      ChatMessageEvent(FromEntity(m, AttachedFile(m.fileId)))
    }

    function ReplayEvents(ms: seq<MessageRow>): (evs: seq<Event>)
      reads fileService
      ensures |evs| == |ms|
    {
      if ms == [] then [] else ReplayEvents(ms[..|ms| - 1]) + [MessageEvent(ms[|ms| - 1])]
    }

    /** The loop both broadcasts share: every registered session gets the
        frame if it can take it; a send that throws is skipped and the loop
        goes on. */
    method Broadcast(ev: Event)
      modifies sessions.Values
      ensures forall s :: s in sessions.Values ==>
        && s.outbox == old(s.outbox) + (if old(s.Deliverable()) then [ev] else [])
        && s.open == old(s.open) && s.broken == old(s.broken) && s.attributes == old(s.attributes)
    {
      var pending := sessions.Values;
      while pending != {}
        invariant pending <= sessions.Values
        invariant forall s :: s in sessions.Values ==>
          s.open == old(s.open) && s.broken == old(s.broken) && s.attributes == old(s.attributes)
        invariant forall s :: s in sessions.Values && s !in pending ==>
          s.outbox == old(s.outbox) + (if old(s.Deliverable()) then [ev] else [])
        invariant forall s :: s in pending ==> s.outbox == old(s.outbox)
        decreases pending
      {
        var s :| s in pending;
        if s.open {
          var ok := s.Send(ev);
        }
        pending := pending - {s};
      }
    }

    /** `broadcastMessage`. */
    method BroadcastMessage(dto: ChatMessageDto)
      modifies sessions.Values
      ensures forall s :: s in sessions.Values ==>
        && s.outbox == old(s.outbox) + (if old(s.Deliverable()) then [ChatMessageEvent(dto)] else [])
        && s.open == old(s.open) && s.broken == old(s.broken) && s.attributes == old(s.attributes)
    {
      Broadcast(ChatMessageEvent(dto));
    }

    /** `broadcastOnlineUserCount`: the count sent is the registry's size. */
    method BroadcastOnlineUserCount()
      modifies sessions.Values
      ensures forall s :: s in sessions.Values ==>
        && s.outbox == old(s.outbox) + (if old(s.Deliverable()) then [UserCount(|sessions|)] else [])
        && s.open == old(s.open) && s.broken == old(s.broken) && s.attributes == old(s.attributes)
    {
      Broadcast(UserCount(|sessions|));
    }

    /** `sendMessage(session, dto)` and the guarded send of
        `sendUserInfoUpdate`: nothing for a closed session; an exception
        escapes when an open session's connection is broken. */
    method SendToSession(session: Session, ev: Event) returns (escaped: Option<Exception>)
      modifies session
      ensures escaped == if old(session.open) && old(session.broken) then Some(IO) else None
      ensures session.outbox == old(session.outbox) + (if old(session.Deliverable()) then [ev] else [])
      ensures session.open == old(session.open) && session.broken == old(session.broken)
      ensures session.attributes == old(session.attributes)
    {
      escaped := None;
      if session.open {
        var ok := session.Send(ev);
        if !ok {
          escaped := Some(IO);
        }
      }
    }

    /** `sendUserInfoUpdate`. */
    method SendUserInfoUpdate(session: Session, clientInfo: string) returns (escaped: Option<Exception>)
      modifies session
      ensures escaped == if old(session.open) && old(session.broken) && UserInfoEvents(clientInfo) != [] then Some(IO) else None
      ensures session.outbox == old(session.outbox) + (if old(session.Deliverable()) then UserInfoEvents(clientInfo) else [])
      ensures session.open == old(session.open) && session.broken == old(session.broken)
      ensures session.attributes == old(session.attributes)
    {
      escaped := None;
      var parts := Split(clientInfo, '|');
      if |parts| >= 2 {
        escaped := SendToSession(session, UserInfoUpdate(parts[0], parts[1]));
      }
    }

    /** One step of the replay: the message with its file, if it has one
        that still exists, sent to the session. */
    method SendReplayed(session: Session, message: MessageRow) returns (escaped: Option<Exception>)
      modifies session
      ensures escaped == if old(session.open) && old(session.broken) then Some(IO) else None
      ensures session.outbox == old(session.outbox) + (if old(session.Deliverable()) then [MessageEvent(message)] else [])
      ensures session.open == old(session.open) && session.broken == old(session.broken)
      ensures session.attributes == old(session.attributes)
    {
      var file: Option<ChatFile> := None;
      if message.fileId.Some? {
        file := fileService.GetFileById(message.fileId.value);
      }
      var dto := FromEntity(message, file);
      escaped := SendToSession(session, ChatMessageEvent(dto));
    }

    /** The replay loop of `afterConnectionEstablished`: each message with
        its file, in the order given; the first send that throws ends it. */
    method ReplayRecent(session: Session, recent: seq<MessageRow>) returns (escaped: Option<Exception>)
      modifies session
      ensures escaped == if old(session.open) && old(session.broken) && recent != [] then Some(IO) else None
      ensures session.outbox == old(session.outbox) + (if old(session.Deliverable()) then ReplayEvents(recent) else [])
      ensures session.open == old(session.open) && session.broken == old(session.broken)
      ensures session.attributes == old(session.attributes)
    {
      ghost var deliverable := session.Deliverable();
      var i := 0;
      while i < |recent|
        invariant 0 <= i <= |recent|
        invariant session.open == old(session.open) && session.broken == old(session.broken)
        invariant session.attributes == old(session.attributes)
        invariant i > 0 ==> !(session.open && session.broken)
        invariant session.outbox == old(session.outbox) + (if deliverable then ReplayEvents(recent[..i]) else [])
      {
        escaped := SendReplayed(session, recent[i]);
        if escaped.Some? {
          return;
        }
        assert recent[..i + 1][..i] == recent[..i];
        assert ReplayEvents(recent[..i + 1]) == ReplayEvents(recent[..i]) + [MessageEvent(recent[i])];
        i := i + 1;
      }
      assert recent[..i] == recent;
      escaped := None;
    }

    /** `extractClientInfo`: fixes the session's address and name in its
        attributes and returns them as "ip|name". */
    method ExtractClientInfo(session: Session) returns (clientInfo: string)
      modifies session
      ensures var info := ResolveClientInfo(StoredClientIp(old(session.attributes)), session.uri, urlDecode);
        && clientInfo == InfoText(info)
        && session.attributes == old(session.attributes)["clientIp" := AttrString(info.ip)]["clientName" := AttrString(info.name)]
      ensures session.open == old(session.open) && session.broken == old(session.broken)
      ensures session.outbox == old(session.outbox)
    {
      var info := ResolveClientInfo(StoredClientIp(session.attributes), session.uri, urlDecode);
      session.attributes := session.attributes["clientIp" := AttrString(info.ip)]["clientName" := AttrString(info.name)];
      clientInfo := info.ip + "|" + info.name;
    }

    /** The frames a new session is sent before the count: its user-info
        update, then the replay of the recent messages. */
    method Welcome(session: Session, clientInfo: string, recent: seq<MessageRow>) returns (escaped: Option<Exception>)
      modifies session
      ensures escaped == (if old(session.open) && old(session.broken) && (UserInfoEvents(clientInfo) != [] || recent != []) then Some(IO) else None)
      ensures session.outbox == old(session.outbox) + (if old(session.Deliverable()) then UserInfoEvents(clientInfo) + ReplayEvents(recent) else [])
      ensures session.open == old(session.open) && session.broken == old(session.broken)
      ensures session.attributes == old(session.attributes)
    {
      ghost var before := session.outbox;
      escaped := SendUserInfoUpdate(session, clientInfo);
      if escaped.Some? {
        assert session.outbox == before;
        return;
      }
      ghost var middle := session.outbox;
      escaped := ReplayRecent(session, recent);
      AppendTwice(before, middle, session.outbox, session.Deliverable(), UserInfoEvents(clientInfo), ReplayEvents(recent));
    }

    /** The sends of `afterConnectionEstablished` once the session is
        registered: its welcome, then the count to everyone. A send to the
        new session that throws escapes and skips the rest. */
    method Greet(session: Session, clientInfo: string, recent: seq<MessageRow>) returns (escaped: Option<Exception>)
      requires session in sessions.Values
      modifies sessions.Values
      ensures var welcome := UserInfoEvents(clientInfo) + ReplayEvents(recent);
        && escaped == (if old(session.open) && old(session.broken) && welcome != [] then Some(IO) else None)
        && session.outbox == old(session.outbox) +
             (if old(session.Deliverable()) then welcome + [UserCount(|sessions|)] else [])
      ensures forall s :: s in sessions.Values ==>
        s.open == old(s.open) && s.broken == old(s.broken) && s.attributes == old(s.attributes)
      ensures forall s :: s in sessions.Values && s != session ==>
        s.outbox == old(s.outbox) + (if escaped.None? && old(s.Deliverable()) then [UserCount(|sessions|)] else [])
    {
      ghost var before, deliverable := session.outbox, session.Deliverable();
      escaped := Welcome(session, clientInfo, recent);
      if escaped.Some? {
        return;
      }
      assert forall s :: s in sessions.Values ==>
        && s.open == old(s.open) && s.broken == old(s.broken) && s.attributes == old(s.attributes)
        && (s != session ==> s.outbox == old(s.outbox));
      ghost var welcomed := session.outbox;
      BroadcastOnlineUserCount();
      AppendTwice(before, welcomed, session.outbox, deliverable,
                  UserInfoEvents(clientInfo) + ReplayEvents(recent), [UserCount(|sessions|)]);
    }

    /** The first steps of `afterConnectionEstablished`: fixes the client
        info, stores it in the session and registers the session. */
    method Register(session: Session) returns (clientInfo: string)
      requires Valid()
      modifies this, session
      ensures Valid()
      ensures sessions == old(sessions)[session.id := session]
      ensures session in sessions.Values
      ensures forall s :: s in sessions.Values && s != session ==> s in old(sessions.Values)
      ensures var info := ResolveClientInfo(StoredClientIp(old(session.attributes)), session.uri, urlDecode);
        && clientInfo == InfoText(info)
        && session.attributes == old(session.attributes)["clientIp" := AttrString(info.ip)]
             ["clientName" := AttrString(info.name)]["clientInfo" := AttrString(InfoText(info))]
      ensures session.open == old(session.open) && session.broken == old(session.broken)
      ensures session.outbox == old(session.outbox)
    {
      clientInfo := ExtractClientInfo(session);
      session.attributes := session.attributes["clientInfo" := AttrString(clientInfo)];
      UpdateKey(sessions, session.id, session);
      sessions := sessions[session.id := session];
    }

    /** `afterConnectionEstablished`: fixes the client info, registers the
        session, then sends it its user-info update and the recent messages
        (newest first), and broadcasts the new count. A send to the new
        session that throws escapes and skips every later step; the session
        stays registered. */
    method AfterConnectionEstablished(session: Session) returns (escaped: Option<Exception>)
      requires Valid()
      modifies this, session, sessions.Values
      ensures Valid()
      ensures sessions == old(sessions)[session.id := session]
      ensures var info := ResolveClientInfo(StoredClientIp(old(session.attributes)), session.uri, urlDecode);
        session.attributes == old(session.attributes)["clientIp" := AttrString(info.ip)]
          ["clientName" := AttrString(info.name)]["clientInfo" := AttrString(InfoText(info))]
      ensures session.open == old(session.open) && session.broken == old(session.broken)
      ensures var info := ResolveClientInfo(StoredClientIp(old(session.attributes)), session.uri, urlDecode);
        var welcome := UserInfoEvents(InfoText(info)) + ReplayEvents(FindRecentMessages(chatService.rows, ReplayLimit));
        && escaped == (if old(session.open) && old(session.broken) && welcome != [] then Some(IO) else None)
        && session.outbox == old(session.outbox) +
             (if old(session.Deliverable()) then welcome + [UserCount(|sessions|)] else [])
      ensures forall s :: s in sessions.Values && s != session ==>
        && s.open == old(s.open) && s.broken == old(s.broken) && s.attributes == old(s.attributes)
        && s.outbox == old(s.outbox) + (if escaped.None? && old(s.Deliverable()) then [UserCount(|sessions|)] else [])
    {
      ghost var info := ResolveClientInfo(StoredClientIp(session.attributes), session.uri, urlDecode);
      ghost var wasDeliverable := session.Deliverable();
      var clientInfo := Register(session);
      assert clientInfo == InfoText(info) && session.Deliverable() == wasDeliverable;
      var recent := chatService.GetRecentMessages(ReplayLimit);
      assert recent == Ok(FindRecentMessages(chatService.rows, ReplayLimit));
      escaped := Greet(session, clientInfo, recent.value);
    }

    /** `afterConnectionClosed`: unregisters the session and broadcasts the
        new count to the sessions that remain. */
    method AfterConnectionClosed(session: Session)
      requires Valid()
      modifies this, sessions.Values
      ensures Valid()
      ensures sessions == old(sessions) - {session.id}
      ensures GetConnectedCount() == old(GetConnectedCount()) - (if session.id in old(sessions) then 1 else 0)
      ensures forall s :: s in sessions.Values ==>
        && s.outbox == old(s.outbox) + (if old(s.Deliverable()) then [UserCount(|sessions|)] else [])
        && s.open == old(s.open) && s.broken == old(s.broken) && s.attributes == old(s.attributes)
      ensures forall s :: s in old(sessions.Values) && s !in sessions.Values ==> unchanged(s)
    {
      Unregister(session);
      BroadcastOnlineUserCount();
    }

    /** The first step of `afterConnectionClosed`: drops the session's id
        from the registry. */
    method Unregister(session: Session)
      requires Valid()
      modifies this
      ensures Valid()
      ensures sessions == old(sessions) - {session.id}
      ensures sessions.Values <= old(sessions.Values)
      ensures GetConnectedCount() == old(GetConnectedCount()) - (if session.id in old(sessions) then 1 else 0)
    {
      RemoveKey(sessions, session.id);
      sessions := sessions - {session.id};
    }

    /** `handleSendMessage`: saves the frame's message under the sender
        session's address (also its unique id) and name, and broadcasts it
        with its file. The first read that throws, or a null content, ends
        it with nothing stored or sent. */
    method HandleSendMessage(session: Session, payload: map<string, Json>, now: int) returns (escaped: Option<Exception>)
      requires Valid()
      modifies chatService, sessions.Values
      ensures Valid()
      ensures var req := ParseSendRequest(old(session.attributes), payload);
        escaped.None? <==> req.Ok? && req.value.content.Some?
      ensures var req := ParseSendRequest(old(session.attributes), payload);
        escaped.Some? ==>
          && escaped == Some(if req.Thrown? then req.ex else ConstraintViolation)
          && chatService.rows == old(chatService.rows) && chatService.nextId == old(chatService.nextId)
          && forall s :: s in sessions.Values ==> unchanged(s)
      ensures var req := ParseSendRequest(old(session.attributes), payload);
        escaped.None? ==>
          var row := SentRow(req.value, old(chatService.nextId), now);
          && chatService.rows == old(chatService.rows) + [row]
          && forall s :: s in sessions.Values ==>
               && s.outbox == old(s.outbox) +
                    (if old(s.Deliverable()) then [ChatMessageEvent(FromEntity(row, AttachedFile(req.value.fileId)))] else [])
               && s.open == old(s.open) && s.broken == old(s.broken) && s.attributes == old(s.attributes)
    {
      var req := ParseSendRequest(session.attributes, payload);
      if req.Thrown? {
        return Some(req.ex);
      }
      escaped := SaveAndBroadcast(req.value, now);
    }

    /** The second half of `handleSendMessage`: saves the message the frame
        asked for and broadcasts it with its file; a null content fails the
        save and nothing is stored or sent. */
    method SaveAndBroadcast(req: SendRequest, now: int) returns (escaped: Option<Exception>)
      requires Valid()
      modifies chatService, sessions.Values
      ensures Valid()
      ensures escaped.None? <==> req.content.Some?
      ensures escaped.Some? ==>
        && escaped == Some(ConstraintViolation)
        && chatService.rows == old(chatService.rows) && chatService.nextId == old(chatService.nextId)
        && forall s :: s in sessions.Values ==> unchanged(s)
      ensures escaped.None? ==>
        var row := SentRow(req, old(chatService.nextId), now);
        && chatService.rows == old(chatService.rows) + [row]
        && forall s :: s in sessions.Values ==>
             && s.outbox == old(s.outbox) +
                  (if old(s.Deliverable()) then [ChatMessageEvent(FromEntity(row, AttachedFile(req.fileId)))] else [])
             && s.open == old(s.open) && s.broken == old(s.broken) && s.attributes == old(s.attributes)
    {
      var saved := chatService.SaveMessage(req.clientIp, Some(req.clientIp), req.clientName,
                                           req.content, req.messageType, req.fileId, now);
      if saved.Thrown? {
        return Some(saved.ex);
      }
      var file: Option<ChatFile> := None;
      if req.fileId.Some? {
        file := fileService.GetFileById(req.fileId.value);
      }
      var dto := FromEntity(saved.value, file);
      BroadcastMessage(dto);
      escaped := None;
    }

    /** `handleRecallMessage`: recalls the message the frame names on behalf
        of the address the frame names, and broadcasts the recalled message
        (without its file) when there was one to recall. */
    method HandleRecallMessage(payload: map<string, Json>, now: int) returns (escaped: Option<Exception>)
      requires Valid()
      modifies chatService, sessions.Values
      ensures Valid()
      ensures escaped.None? <==> ParseRecallRequest(payload).Ok?
      ensures escaped.Some? ==>
        && escaped == Some(ParseRecallRequest(payload).ex)
        && chatService.rows == old(chatService.rows) && chatService.nextId == old(chatService.nextId)
        && forall s :: s in sessions.Values ==> unchanged(s)
      ensures escaped.None? ==>
        var req := ParseRecallRequest(payload).value;
        var outcome := RecallOutcome(old(chatService.rows), req.messageId, req.userIp, now);
        && chatService.rows == AfterRecall(old(chatService.rows), req.messageId, req.userIp, now)
        && chatService.nextId == old(chatService.nextId)
        && forall s :: s in sessions.Values ==>
             && s.outbox == old(s.outbox) +
                  (if outcome.Some? && old(s.Deliverable()) then [ChatMessageEvent(FromEntity(outcome.value, None))] else [])
             && s.open == old(s.open) && s.broken == old(s.broken) && s.attributes == old(s.attributes)
    {
      var req := ParseRecallRequest(payload);
      if req.Thrown? {
        return Some(req.ex);
      }
      escaped := RecallAndBroadcast(req.value, now);
    }

    /** The second half of `handleRecallMessage`: the recall on behalf of the
        frame's address, and the broadcast of the recalled message (without
        its file) when there was one. */
    method RecallAndBroadcast(req: RecallRequest, now: int) returns (escaped: Option<Exception>)
      requires Valid()
      modifies chatService, sessions.Values
      ensures Valid()
      ensures escaped.None?
      ensures var outcome := RecallOutcome(old(chatService.rows), req.messageId, req.userIp, now);
        && chatService.rows == AfterRecall(old(chatService.rows), req.messageId, req.userIp, now)
        && chatService.nextId == old(chatService.nextId)
        && forall s :: s in sessions.Values ==>
             && s.outbox == old(s.outbox) +
                  (if outcome.Some? && old(s.Deliverable()) then [ChatMessageEvent(FromEntity(outcome.value, None))] else [])
             && s.open == old(s.open) && s.broken == old(s.broken) && s.attributes == old(s.attributes)
    {
      var recalled := chatService.RecallMessage(req.messageId, req.userIp, now);
      if recalled.Some? {
        var dto := FromEntity(recalled.value, None);
        BroadcastMessage(dto);
      }
      escaped := None;
    }

    /** `handleTextMessage`: routes a frame by its "type"; any exception is
        caught and reported (`caught`), and then nothing was stored or sent.
        Other types are ignored. The registry never changes. */
    method HandleTextMessage(session: Session, inbound: Inbound, now: int) returns (caught: Option<Exception>)
      requires Valid()
      modifies chatService, sessions.Values
      ensures Valid()
      ensures RouteOf(inbound).Failed? ==> caught == Some(RouteOf(inbound).ex)
      ensures RouteOf(inbound).Ignored? ==> caught.None?
      ensures RouteOf(inbound).Failed? || RouteOf(inbound).Ignored? || caught.Some? ==>
        && chatService.rows == old(chatService.rows) && chatService.nextId == old(chatService.nextId)
        && forall s :: s in sessions.Values ==> unchanged(s)
      ensures RouteOf(inbound).ToSend? ==>
        var req := ParseSendRequest(old(session.attributes), inbound.fields);
        && (caught.None? <==> req.Ok? && req.value.content.Some?)
        && (caught.None? ==>
              var row := SentRow(req.value, old(chatService.nextId), now);
              && chatService.rows == old(chatService.rows) + [row]
              && forall s :: s in sessions.Values ==>
                   && s.outbox == old(s.outbox) +
                        (if old(s.Deliverable()) then [ChatMessageEvent(FromEntity(row, AttachedFile(req.value.fileId)))] else [])
                   && s.open == old(s.open) && s.broken == old(s.broken) && s.attributes == old(s.attributes))
      ensures RouteOf(inbound).ToRecall? ==>
        var req := ParseRecallRequest(inbound.fields);
        && (caught.None? <==> req.Ok?)
        && (caught.None? ==>
              var outcome := RecallOutcome(old(chatService.rows), req.value.messageId, req.value.userIp, now);
              && chatService.rows == AfterRecall(old(chatService.rows), req.value.messageId, req.value.userIp, now)
              && chatService.nextId == old(chatService.nextId)
              && forall s :: s in sessions.Values ==>
                   && s.outbox == old(s.outbox) +
                        (if outcome.Some? && old(s.Deliverable()) then [ChatMessageEvent(FromEntity(outcome.value, None))] else [])
                   && s.open == old(s.open) && s.broken == old(s.broken) && s.attributes == old(s.attributes))
    {
      if inbound.Unparseable? {
        return Some(JsonProcessing);
      }
      var messageType := StringField(inbound.fields, "type");
      if messageType.Thrown? {
        return Some(messageType.ex);
      }
      if messageType.value == Some("sendMessage") {
        caught := HandleSendMessage(session, inbound.fields, now);
      } else if messageType.value == Some("recallMessage") {
        caught := HandleRecallMessage(inbound.fields, now);
      } else {
        caught := None;
      }
    }
  }
}
