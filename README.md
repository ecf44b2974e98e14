# LanChat core, modelled in Dafny

LanChat is a LAN chat server. Browsers connect over a native WebSocket endpoint, send text or file messages, and may recall their own messages. This project models the core of that server and proves its rules:

- **Message log and recall.** The message entity, its `recall()`, the repository queries (filter, ORDER BY timestamp, LIMIT), and the chat service: saving, owner-only recall and the history queries. The store is a class holding the rows of the `chat_messages` table and the next IDENTITY value.
- **Identity and address resolution.**
  - The two header-priority address resolvers: the servlet `IpUtil` and the WebSocket handshake interceptor.
  - IPv6-loopback normalisation by substring.
  - The local user name of `UserService`.
  - The `client=` URI parameter and the fallback identities of the native controller.
  - The `ip#fingerprint@session` slicing and the display-name rule of the message DTO.
- **Session registry and broadcast.** The native controller keeps a map from session id to session. Each session records the frames it was sent and may be broken, in which case every send to it throws. The model covers connection open and close, the user-info update, the replay of recent messages, both broadcasts, and the dispatch of inbound `sendMessage` / `recallMessage` frames.
- **Files.** The stored-name rule of uploads (a UUID plus the extension from the last dot), the saved record, the lookups, and uploader-only deletion.

Java library behaviour the code relies on is written out in module `Lang`:
- `String.split` on one character, with trailing empty strings dropped;
- `trim`, `indexOf`, `lastIndexOf` and `contains`;
- `equalsIgnoreCase("unknown")`, including the KELVIN SIGN;
- `Integer.parseInt` and `Long.valueOf`, with their ranges;
- exceptions, as `Result` values;
- `null`, as `Option`.

Modules, one per source file:

| module | source |
|---|---|
| `Lang` | Java string, number and exception semantics |
| `Http` | request headers, session attributes and loopback normalisation, shared by both resolvers |
| `IpUtil` | `util/IpUtil.java` |
| `HandshakeInterceptor` | `interceptor/WebSocketHandshakeInterceptor.java` |
| `UserService` | `service/UserService.java` |
| `MessageEntity` | `entity/ChatMessage.java` |
| `MessageRepository` | `repository/ChatMessageRepository.java` |
| `MessageService` | `service/ChatService.java` |
| `FileStore` | `service/FileService.java`, with `entity/ChatFile.java` as a datatype |
| `MessageDto` | `dto/ChatMessageDto.java` |
| `NativeController` | `controller/WebSocketNativeController.java` |

Where the sources contradict one another, the model follows the calling code:

- `WebSocketNativeController.handleSendMessage` calls `saveMessage` with six arguments, but `ChatService.saveMessage` takes five. The comment beside the call says the extra argument is a unique id equal to the address. `ChatService.SaveMessage` therefore takes a `uniqueId`, and the controller passes the address.
- `ChatMessageDto` reads `message.getUniqueId()`, but the entity has no such field. The stored row carries an optional `uniqueId`, which is unset for messages created by the entity's constructor.
- A native-socket recall is authorised by the `userIp` field of the inbound frame, not by the sender session's stored address. The model keeps this as written; `NativeController.PayloadAddressAuthorisesRecall` states its consequence.

## Model

| member | source | states |
|---|---|---|
| Lang.IndexOfFrom | src/main/java/cn/yaklo/lanchat/controller/WebSocketNativeController.java:163-165 | `indexOf(sub, from)` is the first position at or after `from` where `sub` occurs, and -1 exactly when it occurs nowhere from there |
| Lang.ContainsIff | src/main/java/cn/yaklo/lanchat/util/IpUtil.java:38 | `contains` holds exactly when the substring occurs at some position |
| Lang.ContainsInfix | src/main/java/cn/yaklo/lanchat/dto/ChatMessageDto.java:72 | a string contains every infix it was built from |
| Lang.ContainsChar | src/main/java/cn/yaklo/lanchat/service/FileService.java:35 | for a one-character string, `contains` is membership |
| Lang.IndexOfChar | src/main/java/cn/yaklo/lanchat/dto/ChatMessageDto.java:76 | `indexOf(c)` is -1 exactly when `c` is absent; otherwise it holds `c` and no earlier position does |
| Lang.LastIndexOfChar | src/main/java/cn/yaklo/lanchat/dto/ChatMessageDto.java:84 | `lastIndexOf(c)` is -1 exactly when `c` is absent; otherwise it holds `c` and no later position does |
| Lang.TrimStart | src/main/java/cn/yaklo/lanchat/interceptor/WebSocketHandshakeInterceptor.java:74 | the result is a suffix; everything dropped is at most U+0020 and the result does not start with such a character |
| Lang.TrimEnd | src/main/java/cn/yaklo/lanchat/interceptor/WebSocketHandshakeInterceptor.java:74 | the result is a prefix; everything dropped is at most U+0020 and the result does not end with such a character |
| Lang.Trim | src/main/java/cn/yaklo/lanchat/interceptor/WebSocketHandshakeInterceptor.java:74 | `trim()` is no longer than its input, and is empty or starts and ends with a character above U+0020 |
| Lang.BlankIffAllTrimmable | src/main/java/cn/yaklo/lanchat/interceptor/WebSocketHandshakeInterceptor.java:73 | `trim().isEmpty()` holds exactly when every character is at most U+0020 |
| Lang.TrimNoop | src/main/java/cn/yaklo/lanchat/interceptor/WebSocketHandshakeInterceptor.java:74 | `trim()` leaves a string with non-space ends unchanged |
| Lang.TrimIdempotent | src/main/java/cn/yaklo/lanchat/interceptor/WebSocketHandshakeInterceptor.java:74 | trimming twice is trimming once |
| Lang.SplitAll | src/main/java/cn/yaklo/lanchat/util/IpUtil.java:39 | the raw pieces between separators: at least one, none containing the separator |
| Lang.JoinSplitAll | src/main/java/cn/yaklo/lanchat/util/IpUtil.java:39 | joining the raw pieces with the separator gives back the string |
| Lang.SplitAllPrefix | src/main/java/cn/yaklo/lanchat/util/IpUtil.java:39 | a separator-free prefix followed by the separator is the first raw piece |
| Lang.DropTrailingEmpty | src/main/java/cn/yaklo/lanchat/util/IpUtil.java:39 | removes exactly the trailing empty pieces: a prefix that is empty or ends in a non-empty piece |
| Lang.Split | src/main/java/cn/yaklo/lanchat/util/IpUtil.java:39 | `split` on one character yields pieces free of the separator |
| Lang.SplitOnlySeparators | src/main/java/cn/yaklo/lanchat/util/IpUtil.java:39-40 | a non-empty string of separators splits into the empty array |
| Lang.SplitEmptyIff | src/main/java/cn/yaklo/lanchat/util/IpUtil.java:39-40 | `split` returns the empty array exactly for a non-empty string made only of separators |
| Lang.SplitFirstPiece | src/main/java/cn/yaklo/lanchat/util/IpUtil.java:39-40 | the first piece is the text before the first separator, unless the array is empty |
| Lang.SplitTwo | src/main/java/cn/yaklo/lanchat/dto/ChatMessageDto.java:73 | `p + c + q` with no separator in `p` or `q`, `q` non-empty, splits into exactly `[p, q]` |
| Lang.SplitAllJoin | src/main/java/cn/yaklo/lanchat/controller/WebSocketNativeController.java:173 | the raw pieces of a join of separator-free pieces are those pieces |
| Lang.SplitJoin | src/main/java/cn/yaklo/lanchat/controller/WebSocketNativeController.java:173 | `split` inverts a join of separator-free pieces whose last piece is non-empty |
| Lang.DigitZero | src/main/java/cn/yaklo/lanchat/interceptor/WebSocketHandshakeInterceptor.java:129 | a character is a decimal digit when it lies in one of the 37 runs of ten Unicode decimal digits a UTF-16 unit can hold; its value is the distance from its run's zero |
| Lang.ParseDecimal | src/main/java/cn/yaklo/lanchat/interceptor/WebSocketHandshakeInterceptor.java:129 | parses exactly an optional sign followed by at least one decimal digit of any script, with the value in the type's range, and the result is the number those digits denote, negated after "-"; every failure is a `NumberFormatException` |
| Lang.ParseDecimalIgnoresScript | src/main/java/cn/yaklo/lanchat/interceptor/WebSocketHandshakeInterceptor.java:129 | a number written in fullwidth, Devanagari or any other decimal digits parses to the same result as in ASCII digits |
| Lang.ParseDecimalIntText | src/main/java/cn/yaklo/lanchat/controller/WebSocketNativeController.java:118 | parsing the decimal text of any in-range number gives that number back |
| Http.Header | src/main/java/cn/yaklo/lanchat/util/IpUtil.java:25 | a header is present exactly when the request carries it, and its value is the request's value |
| Http.AnyColonColonOneIsLoopback | src/main/java/cn/yaklo/lanchat/util/IpUtil.java:44-51 | every address ending in "::1", link-local ones included, becomes 127.0.0.1 |
| IpUtil.FirstUsableHeader | src/main/java/cn/yaklo/lanchat/util/IpUtil.java:15-29 | the chosen value is a usable header (non-empty, not "unknown" in any case) and every earlier header is unusable; none is chosen exactly when no header is usable |
| IpUtil.GetClientIpAddress | src/main/java/cn/yaklo/lanchat/util/IpUtil.java:11-52 | the header loop with its break, the fallback, the comma cut and the loopback rewrite compute `ClientIpAddress` |
| IpUtil.FirstUsableHeaderWins | src/main/java/cn/yaklo/lanchat/util/IpUtil.java:24-29 | the first usable header in the fixed order is chosen, whatever the later ones hold |
| IpUtil.NoHeaderUsesRemoteAddr | src/main/java/cn/yaklo/lanchat/util/IpUtil.java:33-35 | with no usable header the (normalised) peer address is the result |
| IpUtil.SingleValueIsNotTrimmed | src/main/java/cn/yaklo/lanchat/util/IpUtil.java:38 | a chosen value without a comma is returned as is, spaces included |
| IpUtil.CommaListTakesFirstPiece | src/main/java/cn/yaklo/lanchat/util/IpUtil.java:38-41 | a value with a comma resolves to its first piece, trimmed, even when that piece is empty |
| IpUtil.OnlyCommasThrows | src/main/java/cn/yaklo/lanchat/util/IpUtil.java:39-40 | a value of nothing but commas makes `ips[0]` throw `ArrayIndexOutOfBoundsException` |
| IpUtil.OnlyLoopbackIsRewritten | src/main/java/cn/yaklo/lanchat/util/IpUtil.java:44-51 | any result other than 127.0.0.1 is the chosen value or its trimmed first piece |
| HandshakeInterceptor.FirstUsableIndex | src/main/java/cn/yaklo/lanchat/interceptor/WebSocketHandshakeInterceptor.java:71-78 | the scan stops at an entry that is not blank and not "unknown", and every entry it passed over is blank or "unknown" |
| HandshakeInterceptor.FirstUsableEntry | src/main/java/cn/yaklo/lanchat/interceptor/WebSocketHandshakeInterceptor.java:71-78 | no entry is chosen exactly when every entry is blank or "unknown" |
| HandshakeInterceptor.ScanEntries | src/main/java/cn/yaklo/lanchat/interceptor/WebSocketHandshakeInterceptor.java:71-78 | the loop over the X-Forwarded-For entries returns the first usable one, trimmed, or nothing |
| HandshakeInterceptor.PrivateRangesKeepAddress | src/main/java/cn/yaklo/lanchat/interceptor/WebSocketHandshakeInterceptor.java:114-136 | the private-range checks never change the address; they throw exactly for a four-part "172." address whose second part is not a number |
| HandshakeInterceptor.GetClientIpAddress | src/main/java/cn/yaklo/lanchat/interceptor/WebSocketHandshakeInterceptor.java:64-137 | the entry loop, the header chain, the loopback rewrite and the private-range checks compute `ClientIpAddress` |
| HandshakeInterceptor.BeforeHandshake | src/main/java/cn/yaklo/lanchat/interceptor/WebSocketHandshakeInterceptor.java:19-48 | proceeds unless resolution throws (nothing stored) or the HTTP session's "customUserName" is not a string (`ClassCastException`, address and time already stored); stores "clientIp" and "handshakeTime", and "customUserName" only when it is a non-blank string |
| HandshakeInterceptor.ForwardedForEntryWins | src/main/java/cn/yaklo/lanchat/interceptor/WebSocketHandshakeInterceptor.java:68-78 | the first usable X-Forwarded-For entry, trimmed, wins over every other header |
| HandshakeInterceptor.FallbackOrder | src/main/java/cn/yaklo/lanchat/interceptor/WebSocketHandshakeInterceptor.java:80-107 | without such an entry: X-Real-IP, then Proxy-Client-IP, then WL-Proxy-Client-IP (each trimmed), then the peer address |
| HandshakeInterceptor.BlankRealIpResolvesToEmpty | src/main/java/cn/yaklo/lanchat/interceptor/WebSocketHandshakeInterceptor.java:82-85 | an X-Real-IP made of spaces is accepted and the address resolves to "" |
| HandshakeInterceptor.ResultIsNormalizedCandidate | src/main/java/cn/yaklo/lanchat/interceptor/WebSocketHandshakeInterceptor.java:110-136 | the result is the loopback-normalised candidate, private ranges included; it throws exactly for a four-part "172." address with a non-numeric second part |
| HandshakeInterceptor.SplitFourParts | src/main/java/cn/yaklo/lanchat/interceptor/WebSocketHandshakeInterceptor.java:127 | "a.b.c.d" with dot-free parts and a non-empty last part splits into its four parts |
| HandshakeInterceptor.OneSevenTwoShape | src/main/java/cn/yaklo/lanchat/interceptor/WebSocketHandshakeInterceptor.java:114-128 | "172.b.c.d" is not a 192.168 or 10 address, is a 172 address, and splits into four parts |
| HandshakeInterceptor.NumericSecondOctetKeepsAddress | src/main/java/cn/yaklo/lanchat/interceptor/WebSocketHandshakeInterceptor.java:125-136 | a four-part "172." address whose second part parses, in any digit script, is returned unchanged |
| HandshakeInterceptor.FullwidthOctetIsNumeric | src/main/java/cn/yaklo/lanchat/interceptor/WebSocketHandshakeInterceptor.java:129 | the fullwidth "１６" parses as 16, the same as "16" |
| HandshakeInterceptor.NonNumericSecondOctetThrows | src/main/java/cn/yaklo/lanchat/interceptor/WebSocketHandshakeInterceptor.java:125-129 | a four-part "172." address with a non-numeric second part makes the handshake fail with `NumberFormatException` |
| UserService.FormatUserNameCases | src/main/java/cn/yaklo/lanchat/service/UserService.java:20-26 | "本机用户" exactly for null, 127.0.0.1, localhost (or the placeholder itself); any other address unchanged; formatting is idempotent |
| UserService.GetClientIp | src/main/java/cn/yaklo/lanchat/service/UserService.java:11-14 | exactly the `IpUtil` result |
| UserService.GetUserName | src/main/java/cn/yaklo/lanchat/service/UserService.java:16-18 | the formatted `IpUtil` result; a resolver exception propagates |
| MessageEntity.ValueOf | src/main/java/cn/yaklo/lanchat/controller/WebSocketNativeController.java:104 | `valueOf(null)` throws `NullPointerException` |
| MessageEntity.ValueOfInvertsName | src/main/java/cn/yaklo/lanchat/entity/ChatMessage.java:46-48 | `valueOf` accepts exactly TEXT, FILE and SYSTEM, inverts `name()`, and throws `IllegalArgumentException` for any other name |
| MessageEntity.RecallProperties | src/main/java/cn/yaklo/lanchat/entity/ChatMessage.java:59-63 | a recalled row is marked, stamped and carries the sentinel; id, sender, time, type and file are kept; recalling twice equals recalling once at the later time |
| MessageEntity.ChatMessage.constructor | src/main/java/cn/yaklo/lanchat/entity/ChatMessage.java:50-57 | a new message has no id, `recalled` false, no `recalledAt`, and the given sender, name, content, type and time |
| MessageEntity.ChatMessage.Load | src/main/java/cn/yaklo/lanchat/entity/ChatMessage.java:17-44 | the entity loaded for a row saves back as that row |
| MessageEntity.ChatMessage.Recall | src/main/java/cn/yaklo/lanchat/entity/ChatMessage.java:59-63 | sets `recalled`, `recalledAt` and the sentinel content, keeps every other field; the saved row is the recalled form of the old one |
| MessageRepository.Where | src/main/java/cn/yaklo/lanchat/repository/ChatMessageRepository.java:16 | each kept row appears as often as it is stored and every other row not at all |
| MessageRepository.Insert | src/main/java/cn/yaklo/lanchat/repository/ChatMessageRepository.java:16 | inserting into an ordered sequence keeps it ordered and adds exactly the one row |
| MessageRepository.OrderByTimestamp | src/main/java/cn/yaklo/lanchat/repository/ChatMessageRepository.java:16 | ORDER BY timestamp gives an ordered permutation of its input |
| MessageRepository.Take | src/main/java/cn/yaklo/lanchat/repository/ChatMessageRepository.java:16-17 | LIMIT n is the prefix of length min(n, size) |
| MessageRepository.FindRecentMessages | src/main/java/cn/yaklo/lanchat/repository/ChatMessageRepository.java:16-17 | at most a page of stored non-recalled rows, newest first |
| MessageRepository.FindMessagesBefore | src/main/java/cn/yaklo/lanchat/repository/ChatMessageRepository.java:19-20 | at most a page of stored non-recalled rows strictly before `t`, newest first; a null `t` selects nothing |
| MessageRepository.FindByUserIpOrderByTimestampDesc | src/main/java/cn/yaklo/lanchat/repository/ChatMessageRepository.java:22 | exactly the rows of that sender, recalled ones included, newest first |
| MessageRepository.CountByRecalledFalse | src/main/java/cn/yaklo/lanchat/repository/ChatMessageRepository.java:27 | the number of non-recalled rows |
| MessageRepository.FindAllActiveMessagesOrderByTimestamp | src/main/java/cn/yaklo/lanchat/repository/ChatMessageRepository.java:29-30 | exactly the non-recalled rows, oldest first, as many as the count |
| MessageRepository.FindActiveMessageByIdAndUserIp | src/main/java/cn/yaklo/lanchat/repository/ChatMessageRepository.java:24-25 | a stored row matching id and sender and not recalled; null exactly when there is none |
| MessageRepository.FindById | src/main/java/cn/yaklo/lanchat/service/ChatService.java:59-61 | a stored row with that id; empty exactly when there is none |
| MessageRepository.PrefixPrecedesRest | src/main/java/cn/yaklo/lanchat/repository/ChatMessageRepository.java:16-17 | in an ordered sequence every row of a prefix comes before (in the query's order) every row after it |
| MessageRepository.NewestPage | src/main/java/cn/yaklo/lanchat/repository/ChatMessageRepository.java:16-20 | the first page of a newest-first ordering holds min(page, size) of the ordered rows, and none left off is newer than a row on it |
| MessageRepository.BeforeMessagesAreTheNewest | src/main/java/cn/yaklo/lanchat/repository/ChatMessageRepository.java:19-20 | the page before `t` holds min(page, count) of the non-recalled rows sent before `t`, and none of them left off is newer than a row on it |
| MessageRepository.RecentMessagesAreTheNewest | src/main/java/cn/yaklo/lanchat/repository/ChatMessageRepository.java:16-17 | the page holds min(page, count) non-recalled rows, and no non-recalled row left off it is newer than a row on it |
| MessageService.ReplaceById | src/main/java/cn/yaklo/lanchat/service/ChatService.java:46 | saving an entity with an id overwrites the row with that id and keeps every other row |
| MessageService.ChatService.constructor | src/main/java/cn/yaklo/lanchat/entity/ChatMessage.java:17-18 | an empty table whose identity counter starts at 1 |
| MessageService.ChatService.SaveMessage | src/main/java/cn/yaklo/lanchat/service/ChatService.java:19-26 | appends one non-recalled row with the given fields, a fresh larger id and the file id only when given, retrievable by its id; a null content stores nothing |
| MessageService.ChatService.RecallMessage | src/main/java/cn/yaklo/lanchat/service/ChatService.java:42-49 | returns and stores the recall outcome: the recalled row when the sender's non-recalled row exists, otherwise null and nothing changes |
| MessageService.ChatService.GetRecentMessages | src/main/java/cn/yaklo/lanchat/service/ChatService.java:28-31 | at most `limit` stored non-recalled rows, newest first; a limit below 1 throws; the rows are the repository's recent page |
| MessageService.ChatService.GetMessagesBefore | src/main/java/cn/yaklo/lanchat/service/ChatService.java:33-36 | at most `limit` stored non-recalled rows before the timestamp, newest first; a limit below 1 throws; the rows are the repository's page before the timestamp |
| MessageService.ChatService.GetMessagesByUser | src/main/java/cn/yaklo/lanchat/service/ChatService.java:38-40 | exactly the sender's stored rows, newest first |
| MessageService.ChatService.GetAllActiveMessages | src/main/java/cn/yaklo/lanchat/service/ChatService.java:51-53 | exactly the non-recalled rows, oldest first |
| MessageService.ChatService.GetTotalMessageCount | src/main/java/cn/yaklo/lanchat/service/ChatService.java:55-57 | the number of non-recalled messages |
| MessageService.ChatService.GetMessageById | src/main/java/cn/yaklo/lanchat/service/ChatService.java:59-61 | the stored row with that id, null exactly when there is none |
| MessageService.RecallAuthorisation | src/main/java/cn/yaklo/lanchat/service/ChatService.java:42-49 | recall succeeds exactly when a non-recalled row with that id was sent from that address; otherwise nothing changes |
| MessageService.RecallByAnotherAddressChangesNothing | src/main/java/cn/yaklo/lanchat/service/ChatService.java:43 | a recall from another address returns null and changes no row |
| MessageService.RecallEffect | src/main/java/cn/yaklo/lanchat/service/ChatService.java:44-46 | a successful recall replaces the one matching row by its recalled form and touches no other row |
| MessageService.RecallIdempotent | src/main/java/cn/yaklo/lanchat/service/ChatService.java:43-48 | a second recall of the same message returns null and changes nothing |
| MessageService.ActiveRowsAfterRecall | src/main/java/cn/yaklo/lanchat/service/ChatService.java:44-46 | the non-recalled rows after a recall are the earlier ones less the recalled row |
| MessageService.OnlyRecalledRowHasId | src/main/java/cn/yaklo/lanchat/service/ChatService.java:44-46 | after recalling a row it is the only row with its id |
| MessageService.RecalledIdOffEveryPage | src/main/java/cn/yaklo/lanchat/service/ChatService.java:28-36 | when every row with an id is recalled, no page of recent or earlier messages holds that id |
| MessageService.RecallLowersCount | src/main/java/cn/yaklo/lanchat/service/ChatService.java:55-57 | recalling a non-recalled row lowers the active count by exactly one |
| MessageService.RecalledRowFoundById | src/main/java/cn/yaklo/lanchat/service/ChatService.java:59-61 | with unique ids, the lookup by id finds the recalled form of the row |
| MessageService.RecalledMessageLeavesHistory | src/main/java/cn/yaklo/lanchat/service/ChatService.java:28-36 | after a recall the message is in no page of recent or earlier messages, the count drops by one, and the id finds its recalled form |
| FileStore.Extension | src/main/java/cn/yaklo/lanchat/service/FileService.java:33-37 | "" for a null name or a name without a dot; otherwise the suffix from the last dot, which has no other dot |
| FileStore.StoredNameKeepsExtension | src/main/java/cn/yaklo/lanchat/service/FileService.java:38 | the stored name is the UUID followed by the extension, and itself has that extension |
| FileStore.FileService.constructor | src/main/java/cn/yaklo/lanchat/service/FileService.java:20 | no records and an identity counter at 1 |
| FileStore.FileService.UploadFile | src/main/java/cn/yaklo/lanchat/service/FileService.java:25-55 | a storage failure throws before saving; a null name violates the constraint and saves nothing; otherwise the record with stored name, path, size, type and uploader is added under a fresh id |
| FileStore.FileService.GetFileById | src/main/java/cn/yaklo/lanchat/service/FileService.java:57-59 | the record with that id, null exactly for an unknown id |
| FileStore.FileService.GetPhysicalFile | src/main/java/cn/yaklo/lanchat/service/FileService.java:87-93 | the record's stored path, null exactly for an unknown id |
| FileStore.FileService.DeleteFile | src/main/java/cn/yaklo/lanchat/service/FileService.java:69-85 | true exactly when the record exists, the caller uploaded it and removing the file did not throw, and then only that record is gone; otherwise nothing changes |
| MessageDto.FromEntity | src/main/java/cn/yaklo/lanchat/dto/ChatMessageDto.java:35-102 | copies the stored fields, names the type so that `valueOf` gives it back, sets file name and size only when a file is given, copies `recalledAt`, sets the fingerprint, session id and display name from the unique id and sender, flags SYSTEM messages and sets source "WebSocket" |
| MessageDto.FingerprintRoundTrip | src/main/java/cn/yaklo/lanchat/dto/ChatMessageDto.java:70-81 | from `ip#fp@s`, with no "#" in any part and no "@" in `fp`, the fingerprint read back is `fp` when it is non-empty, and none otherwise |
| MessageDto.SessionRoundTrip | src/main/java/cn/yaklo/lanchat/dto/ChatMessageDto.java:84-87 | from `ip#fp@s` with no "@" in `s`, the session read back is `s` when it is non-empty, and none otherwise |
| MessageDto.DtoCarriesIdentity | src/main/java/cn/yaklo/lanchat/dto/ChatMessageDto.java:59-88 | a message with unique id `ip#fp@s` reaches browsers with fingerprint `fp` and session `s`, each when non-empty |
| MessageDto.SessionIdIff | src/main/java/cn/yaklo/lanchat/dto/ChatMessageDto.java:84-87 | the session id is `v` exactly when the unique id ends in "@" + `v`, `v` non-empty without "@", and something precedes that "@" |
| MessageDto.DisplayNameShowsAddress | src/main/java/cn/yaklo/lanchat/dto/ChatMessageDto.java:91-95 | the address is appended in parentheses exactly when it is not 127.0.0.1 |
| NativeController.StringField | src/main/java/cn/yaklo/lanchat/controller/WebSocketNativeController.java:94-95 | a `(String)` cast of a payload value: a JSON string reads as itself, null for an absent key or JSON null, `ClassCastException` exactly for a non-string |
| NativeController.LongField | src/main/java/cn/yaklo/lanchat/controller/WebSocketNativeController.java:118 | `Long.valueOf(get(key).toString())`: a missing value throws `NullPointerException`; a string or other value is `Long.parseLong` of its text; a result is in the long range |
| NativeController.OptionalLongField | src/main/java/cn/yaklo/lanchat/controller/WebSocketNativeController.java:97 | null exactly when the value is absent or null; otherwise it throws or gives exactly what `Long.valueOf` of the value's text gives |
| NativeController.NumericFieldRoundTrip | src/main/java/cn/yaklo/lanchat/controller/WebSocketNativeController.java:97 | a JSON number in the long range is read back as itself by both readers |
| NativeController.StringAttribute | src/main/java/cn/yaklo/lanchat/controller/WebSocketNativeController.java:218 | a `(String)` cast of a session attribute: a stored string reads as itself, null exactly for an absent key, `ClassCastException` exactly for a non-string |
| NativeController.ClientIp | src/main/java/cn/yaklo/lanchat/controller/WebSocketNativeController.java:217-223 | a stored non-empty "clientIp" string is returned; an absent or empty one gives 127.0.0.1; `ClassCastException` exactly for a non-string; never empty |
| NativeController.ClientName | src/main/java/cn/yaklo/lanchat/controller/WebSocketNativeController.java:230-236 | a stored non-empty "clientName" string is returned; an absent or empty one gives "未知用户"; `ClassCastException` exactly for a non-string; never empty |
| NativeController.ResolveClientInfo | src/main/java/cn/yaklo/lanchat/controller/WebSocketNativeController.java:150-215 | the settled identity always has a non-empty address |
| NativeController.ClientInfoOutcomes | src/main/java/cn/yaklo/lanchat/controller/WebSocketNativeController.java:150-215 | a usable stored address is kept with the name from the URI; a missing, empty or "unknown" one gives 127.0.0.1 / "未知用户"; a non-string attribute or a missing URI gives 127.0.0.1 / "紧急用户"; any address other than 127.0.0.1 is the stored one |
| NativeController.ClientParamExtraction | src/main/java/cn/yaklo/lanchat/controller/WebSocketNativeController.java:161-169 | the `client=` value is exactly the text after "client=" up to the next "&" or the end |
| NativeController.UserNameIsThirdField | src/main/java/cn/yaklo/lanchat/controller/WebSocketNativeController.java:170-175 | when the decoded value joins at least three fields with "\|", the user name is the third |
| NativeController.UserInfoUpdateCarriesIdentity | src/main/java/cn/yaklo/lanchat/controller/WebSocketNativeController.java:241-261 | the user-info update carries the session's address and name, and an empty name ("ip\|") sends nothing |
| NativeController.SendUsesResolvedIdentity | src/main/java/cn/yaklo/lanchat/controller/WebSocketNativeController.java:183-185 | the address and name stored at connection time are the ones `getClientIp` / `getClientName` later return (an empty name reads as "未知用户") |
| NativeController.SendRequestFields | src/main/java/cn/yaklo/lanchat/controller/WebSocketNativeController.java:91-104 | a parsed send frame holds the session's address and name as the getters read them and the frame's content, type name and file id; a frame without "messageType" throws `NullPointerException` |
| NativeController.RouteOf | src/main/java/cn/yaklo/lanchat/controller/WebSocketNativeController.java:73-86 | a frame is routed to send exactly when its "type" is "sendMessage", to recall exactly when it is "recallMessage"; unparseable JSON or a non-string "type" fails, and nothing else does |
| NativeController.PayloadAddressAuthorisesRecall | src/main/java/cn/yaklo/lanchat/controller/WebSocketNativeController.java:117-126 | a frame naming a stored non-recalled message and its sender's address recalls it, whichever session sends it |
| NativeController.Session.Send | src/main/java/cn/yaklo/lanchat/controller/WebSocketNativeController.java:131 | a send succeeds exactly on an open, unbroken session, and then appends the frame |
| NativeController.WebSocketNativeController.constructor | src/main/java/cn/yaklo/lanchat/controller/WebSocketNativeController.java:32 | the registry starts empty |
| NativeController.WebSocketNativeController.GetConnectedCount | src/main/java/cn/yaklo/lanchat/controller/WebSocketNativeController.java:264-266 | the number of registered session ids |
| NativeController.WebSocketNativeController.ReplayEvents | src/main/java/cn/yaklo/lanchat/controller/WebSocketNativeController.java:47-55 | one frame per replayed message |
| NativeController.WebSocketNativeController.Broadcast | src/main/java/cn/yaklo/lanchat/controller/WebSocketNativeController.java:135-148 | every registered open, unbroken session receives the frame once; the others receive nothing; no session's state changes otherwise |
| NativeController.WebSocketNativeController.BroadcastMessage | src/main/java/cn/yaklo/lanchat/controller/WebSocketNativeController.java:135-148 | the message frame reaches every deliverable registered session, and one failed send does not stop the others |
| NativeController.WebSocketNativeController.BroadcastOnlineUserCount | src/main/java/cn/yaklo/lanchat/controller/WebSocketNativeController.java:268-285 | the count sent is the registry's size, to every deliverable registered session |
| NativeController.WebSocketNativeController.SendToSession | src/main/java/cn/yaklo/lanchat/controller/WebSocketNativeController.java:128-133 | nothing for a closed session; an open, broken session makes the exception escape |
| NativeController.WebSocketNativeController.SendUserInfoUpdate | src/main/java/cn/yaklo/lanchat/controller/WebSocketNativeController.java:241-262 | sends the update only when the client info splits into at least two fields; an open, broken session makes the exception escape |
| NativeController.WebSocketNativeController.SendReplayed | src/main/java/cn/yaklo/lanchat/controller/WebSocketNativeController.java:49-54 | one replayed message with its existing file is sent; an open, broken session makes the exception escape |
| NativeController.WebSocketNativeController.ReplayRecent | src/main/java/cn/yaklo/lanchat/controller/WebSocketNativeController.java:47-55 | each message with its file, in the given order; the first failing send escapes |
| NativeController.WebSocketNativeController.ExtractClientInfo | src/main/java/cn/yaklo/lanchat/controller/WebSocketNativeController.java:150-215 | stores the resolved address and name as "clientIp" and "clientName" and returns "ip\|name" |
| NativeController.WebSocketNativeController.Welcome | src/main/java/cn/yaklo/lanchat/controller/WebSocketNativeController.java:44-55 | the new session receives its user-info update, then the replay; a failing send escapes |
| NativeController.WebSocketNativeController.Greet | src/main/java/cn/yaklo/lanchat/controller/WebSocketNativeController.java:44-58 | the welcome, then the count to every registered session, unless a send to the new session escaped |
| NativeController.WebSocketNativeController.Register | src/main/java/cn/yaklo/lanchat/controller/WebSocketNativeController.java:37-41 | stores the client info and registers the session under its id |
| NativeController.WebSocketNativeController.AfterConnectionEstablished | src/main/java/cn/yaklo/lanchat/controller/WebSocketNativeController.java:35-61 | registers the session with its resolved identity; it receives its user-info update, the recent messages and then the count, in that order; other sessions receive only the count; a failing send escapes and skips the rest |
| NativeController.WebSocketNativeController.AfterConnectionClosed | src/main/java/cn/yaklo/lanchat/controller/WebSocketNativeController.java:64-70 | removes the id (nothing changes for an absent id), the count drops accordingly, and the remaining sessions receive it |
| NativeController.WebSocketNativeController.Unregister | src/main/java/cn/yaklo/lanchat/controller/WebSocketNativeController.java:65 | the id is removed, no session is added, and the count drops by one exactly when the id was registered |
| NativeController.WebSocketNativeController.SaveAndBroadcast | src/main/java/cn/yaklo/lanchat/controller/WebSocketNativeController.java:103-114 | a null content violates the constraint and changes nothing; otherwise exactly one row is appended and every deliverable session receives its frame with the attached file |
| NativeController.WebSocketNativeController.HandleSendMessage | src/main/java/cn/yaklo/lanchat/controller/WebSocketNativeController.java:89-115 | saves the message under the session's stored address (also its unique id) and name and broadcasts it with its file; the first failing read, or a null content, leaves store and sessions untouched |
| NativeController.WebSocketNativeController.HandleRecallMessage | src/main/java/cn/yaklo/lanchat/controller/WebSocketNativeController.java:117-126 | recalls on behalf of the frame's address; broadcasts only when a message was recalled; a failing read changes nothing |
| NativeController.WebSocketNativeController.RecallAndBroadcast | src/main/java/cn/yaklo/lanchat/controller/WebSocketNativeController.java:121-125 | the store becomes `AfterRecall`; only when a message was recalled does each deliverable session receive it, without its file |
| NativeController.WebSocketNativeController.HandleTextMessage | src/main/java/cn/yaklo/lanchat/controller/WebSocketNativeController.java:73-87 | only "sendMessage" and "recallMessage" act, with the new store and what each session receives as for the two handlers; other types and any exception leave the store and every session untouched; the registry never changes |

## Left out

- Http.Header: header names are looked up exactly as the code spells them. The servlet `getHeader` and Spring's `HttpHeaders.getFirst` match names without regard to letter case and return the first of repeated headers; the request's map is taken to hold that first value under the spelling the code asks for, so case-insensitive matching and repeated headers are not modelled.
- JSON parsing and serialisation (Jackson). An inbound frame is a parsed map or `Unparseable`. An outbound frame is an `Event` value. Frames are not rendered as text.
- Transport and concurrency. `ConcurrentHashMap` and concurrent handlers are modelled as a sequential map. `session.sendMessage` is modelled as appending to an outbox or failing. The framework's reaction to an exception escaping `afterConnectionEstablished` (closing the session) is not modelled.
- Time. `LocalDateTime.now()` is an integer `now` parameter. The "yyyy-MM-dd HH:mm:ss" formatting of DTO timestamps is not modelled.
- `URLDecoder.decode` is the controller's `urlDecode` parameter. `UUID.randomUUID()` is the `uuid` parameter of uploads.
- The file system. Directory creation, copying and deletion are reduced to whether each succeeds (`storageOk`, `removeOk`).
- `IpUtil.getSessionId` is not modelled: it depends on the clock and `Math.random`.
- `getClientUniqueId` of the native controller is not modelled separately. It is unused, and its rule (the unique id is the address) is part of `HandleSendMessage`.
- `FileService.getFileByStoredName` and `FileService.getFilesByUser` are not modelled. They are plain repository lookups that no modelled operation uses.
- `ChatController`, `WebSocketController`, `FileController`, `NativeWebSocketConfig` and `ChatFileRepository` are not part of this model. They are HTTP/STOMP wrappers and wiring.
- Column length limits and JPA mapping details. Ids are unbounded naturals: no `Long` overflow of the identity counters is modelled.
- Ties between equal timestamps. The database leaves their order open; the model breaks ties by a fixed sort, and no contract depends on that choice.
- Console logging.
- NativeController.ResolveClientInfo: its own contract states only that the address is non-empty. Its outcomes are stated by `ClientInfoOutcomes`, and the URI rules by `ClientParamExtraction` and `UserNameIsThirdField`.
- NativeController.WebSocketNativeController.ReplayEvents: its own contract states only the length. The content of each frame is `FromEntity` of the message and its attached file, whose properties `MessageDto.FromEntity` states.
- MessageDto.DisplayName: the address is never null in the model, because the `userIp` column is NOT NULL. The `getUserIp() != null` test is therefore always true.
