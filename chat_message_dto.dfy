/** The message as it is sent to browsers: the stored fields, the attached
    file's name and size, and identity fields derived from the sender's
    unique id of the form `ip#fingerprint@session`. */
module MessageDto {
  import opened Lang
  import opened Http
  import opened MessageEntity
  import opened FileStore

  /** `ChatMessageDto`. Timestamps stay integers; their formatting as
      "yyyy-MM-dd HH:mm:ss" is not part of this model. A field the code
      leaves unset is `None`. */
  datatype ChatMessageDto = ChatMessageDto(
    id: nat,
    userIp: string,
    uniqueId: Option<string>,
    userName: string,
    content: string,
    timestamp: int,
    messageType: string,
    recalled: bool,
    recalledAt: Option<int>,
    fileId: Option<int>,
    fileName: Option<string>,
    fileSize: Option<int>,
    browserFingerprint: Option<string>,
    sessionId: Option<string>,
    displayName: string,
    isSystemMessage: bool,
    messageSource: string)

  /** The browser fingerprint inside a unique id: in the second "#"-separated
      piece, the text before its first "@", when that text is not empty. */
  function BrowserFingerprint(uniqueId: Option<string>): Option<string> {
    if uniqueId.None? || !Contains(uniqueId.value, "#") then None
    else
      var parts := Split(uniqueId.value, '#');
      if |parts| < 2 then None
      else
        var fingerprintWithSession := parts[1];
        var at := IndexOfChar(fingerprintWithSession, '@');
        if at > 0 then Some(fingerprintWithSession[..at]) else None
  }

  /** The session part of a unique id: the text after its last "@", when that
      "@" is neither the first nor the last character. */
  function SessionIdOf(uniqueId: Option<string>): Option<string> {
    if uniqueId.None? then None
    else
      var u := uniqueId.value;
      var at := LastIndexOfChar(u, '@');
      if at > 0 && at < |u| - 1 then Some(u[at + 1..]) else None
  }

  /** The name shown for a message: the sender's name, followed by its address
      in parentheses unless the address is 127.0.0.1. */
  function DisplayName(userName: string, userIp: string): string {
    if userIp != Loopback then userName + " (" + userIp + ")" else userName
  }

  /** `fromEntity` with `enhanceMessageIdentity`. */
  function FromEntity(message: MessageRow, file: Option<ChatFile>): (dto: ChatMessageDto)
    ensures dto.id == message.id && dto.userIp == message.userIp && dto.uniqueId == message.uniqueId
    ensures dto.userName == message.userName && dto.content == message.content
    ensures dto.timestamp == message.timestamp && dto.recalled == message.recalled && dto.fileId == message.fileId
    ensures ValueOf(Some(dto.messageType)) == Ok(message.messageType)
    ensures dto.recalledAt == message.recalledAt
    ensures dto.fileName.Some? <==> file.Some?
    ensures dto.fileSize.Some? <==> file.Some?
    ensures file.Some? ==> dto.fileName == Some(file.value.originalName) && dto.fileSize == Some(file.value.fileSize)
    ensures dto.browserFingerprint == BrowserFingerprint(message.uniqueId)
    ensures dto.sessionId == SessionIdOf(message.uniqueId)
    ensures dto.displayName == DisplayName(message.userName, message.userIp)
    ensures dto.isSystemMessage <==> message.messageType == SYSTEM
    ensures dto.messageSource == "WebSocket"
  {
    ValueOfInvertsName("", message.messageType);
    ChatMessageDto(
      message.id,
      message.userIp,
      message.uniqueId,
      message.userName,
      message.content,
      message.timestamp,
      TypeName(message.messageType),
      message.recalled,
      message.recalledAt,
      message.fileId,
      if file.Some? then Some(file.value.originalName) else None,
      if file.Some? then Some(file.value.fileSize) else None,
      BrowserFingerprint(message.uniqueId),
      SessionIdOf(message.uniqueId),
      DisplayName(message.userName, message.userIp),
      message.messageType == SYSTEM,
      "WebSocket")
  }

  // ------------------------------------------------------------------ properties

  /** Slicing inverts composition, for the fingerprint: from `ip#fp@s`, with
      no "#" in any part and no "@" in `fp`, the fingerprint read back is `fp`
      (when it is not empty). */
  lemma {:induction false} FingerprintRoundTrip(ip: string, fp: string, s: string)
    requires '#' !in ip && '#' !in fp && '#' !in s
    requires '@' !in fp
    ensures BrowserFingerprint(Some(ip + "#" + fp + "@" + s)) == (if fp != "" then Some(fp) else None)
  {
    var tail := fp + ['@'] + s;
    var u := ip + "#" + fp + "@" + s;
    assert u == ip + ['#'] + tail;
    ContainsInfix(ip, "#", tail);
    SplitTwo(ip, tail, '#');
    assert Split(u, '#')[1] == tail;
    assert tail[|fp|] == '@';
    assert IndexOfChar(tail, '@') == |fp|;
    assert tail[..|fp|] == fp;
  }

  /** Slicing inverts composition, for the session: from `ip#fp@s`, with no
      "@" in `s`, the session read back is `s` (when it is not empty). */
  lemma {:induction false} SessionRoundTrip(ip: string, fp: string, s: string)
    requires '@' !in s
    ensures SessionIdOf(Some(ip + "#" + fp + "@" + s)) == (if s != "" then Some(s) else None)
  {
    var u := ip + "#" + fp + "@" + s;
    var at := |ip| + 1 + |fp|;
    assert u[at] == '@';
    assert u[at + 1..] == s;
    assert LastIndexOfChar(u, '@') == at;
  }

  /** A message whose unique id is `ip#fp@s` reaches browsers carrying `fp`
      as its fingerprint and `s` as its session, each when non-empty. */
  lemma {:induction false} DtoCarriesIdentity(message: MessageRow, file: Option<ChatFile>, ip: string, fp: string, s: string)
    requires message.uniqueId == Some(ip + "#" + fp + "@" + s)
    requires '#' !in ip && '#' !in fp && '#' !in s
    requires '@' !in fp && '@' !in s
    ensures FromEntity(message, file).browserFingerprint == (if fp != "" then Some(fp) else None)
    ensures FromEntity(message, file).sessionId == (if s != "" then Some(s) else None)
  {
    FingerprintRoundTrip(ip, fp, s);
    SessionRoundTrip(ip, fp, s);
  }

  /** The session id is set exactly when the unique id is `p@v` with `p` and
      `v` non-empty and no "@" in `v`, and then it is `v`. */
  lemma {:induction false} SessionIdIff(u: string, v: string)
    ensures SessionIdOf(Some(u)) == Some(v) <==>
      |v| >= 1 && |u| >= |v| + 2 && '@' !in v && u[|u| - |v| - 1] == '@' && u[|u| - |v|..] == v
  {
    var at := LastIndexOfChar(u, '@');
    if |v| >= 1 && |u| >= |v| + 2 && '@' !in v && u[|u| - |v| - 1] == '@' && u[|u| - |v|..] == v {
      assert u[|u| - |v| - 1 + 1..] == v;
      assert at == |u| - |v| - 1;
    }
  }

  /** The address is shown next to the name exactly when it is not
      127.0.0.1. */
  lemma {:induction false} DisplayNameShowsAddress(userName: string, userIp: string)
    ensures DisplayName(userName, userIp) == userName <==> userIp == Loopback
    ensures userIp != Loopback ==> DisplayName(userName, userIp) == userName + " (" + userIp + ")"
  {
    if userIp != Loopback {
      assert |DisplayName(userName, userIp)| > |userName|;
    }
  }
}
