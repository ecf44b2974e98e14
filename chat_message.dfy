/** A chat message as stored in the chat_messages table: the value of a row,
    and the entity object whose constructor and `recall()` assign its fields. */
module MessageEntity {
  import opened Lang

  /** `ChatMessage.MessageType`. */
  datatype MessageType = TEXT | FILE | SYSTEM

  /** `Enum.name()`. */
  function TypeName(t: MessageType): string {
    match t
    case TEXT => "TEXT"
    case FILE => "FILE"
    case SYSTEM => "SYSTEM"
  }

  /** `MessageType.valueOf(name)`: the constant with exactly that name;
      `NullPointerException` for null, `IllegalArgumentException` otherwise. */
  function ValueOf(name: Option<string>): (r: Result<MessageType>)
    ensures name.None? ==> r == Thrown(NullPointer)
  {
    match name
    case None => Thrown(NullPointer)
    case Some(n) =>
      if n == "TEXT" then Ok(TEXT)
      else if n == "FILE" then Ok(FILE)
      else if n == "SYSTEM" then Ok(SYSTEM)
      else Thrown(IllegalArgument)
  }

  /** `valueOf` accepts exactly the three names and inverts `name()`. */
  lemma {:induction false} ValueOfInvertsName(name: string, t: MessageType)
    ensures ValueOf(Some(TypeName(t))) == Ok(t)
    ensures ValueOf(Some(name)).Ok? ==> TypeName(ValueOf(Some(name)).value) == name
    ensures ValueOf(Some(name)).Thrown? ==> ValueOf(Some(name)).ex == IllegalArgument
  {
  }

  /** The content a recalled message carries from then on ("message recalled"). */
  const RecallSentinel: string := "[消息已被撤回]"

  /** One stored message. `uniqueId` is the sender identity the data-transfer
      object reads; the entity class has no such column, so it is optional
      here. Timestamps are integers. */
  datatype MessageRow = MessageRow(
    id: nat,
    userIp: string,
    uniqueId: Option<string>,
    userName: string,
    content: string,
    timestamp: int,
    messageType: MessageType,
    recalled: bool,
    recalledAt: Option<int>,
    fileId: Option<int>)

  /** What `recall()` at time `now` makes of a row. */
  function Recalled(row: MessageRow, now: int): MessageRow {
    row.(recalled := true, recalledAt := Some(now), content := RecallSentinel)
  }

  /** Recall marks the row, stamps it and replaces the content by the sentinel;
      it keeps the id, sender, send time, type and file. A second recall gives
      the same row as one recall at the later time: only `recalledAt` moves. */
  lemma {:induction false} RecallProperties(row: MessageRow, t1: int, t2: int)
    ensures var r := Recalled(row, t1);
      && r.recalled && r.content == RecallSentinel && r.recalledAt == Some(t1)
      && r.id == row.id && r.userIp == row.userIp && r.uniqueId == row.uniqueId
      && r.userName == row.userName && r.timestamp == row.timestamp
      && r.messageType == row.messageType && r.fileId == row.fileId
    ensures Recalled(Recalled(row, t1), t2) == Recalled(row, t2)
  {
  }

  /** The JPA entity. Before it is saved its id is null. */
  class ChatMessage {
    var id: Option<nat>
    var userIp: string
    var uniqueId: Option<string>
    var userName: string
    var content: string
    var timestamp: int
    var messageType: MessageType
    var recalled: bool
    var recalledAt: Option<int>
    var fileId: Option<int>

    /** The four-argument constructor, with `LocalDateTime.now()` as `now`. */
    constructor (userIp: string, userName: string, content: string, messageType: MessageType, now: int)
      ensures id.None? && uniqueId.None? && fileId.None?
      ensures this.userIp == userIp && this.userName == userName && this.content == content
      ensures this.messageType == messageType && timestamp == now
      ensures !recalled && recalledAt.None?
    {
      id := None;
      this.userIp := userIp;
      uniqueId := None;
      this.userName := userName;
      this.content := content;
      this.messageType := messageType;
      timestamp := now;
      recalled := false;
      recalledAt := None;
      fileId := None;
    }

    /** The entity the repository hands out for a stored row. */
    constructor Load(row: MessageRow)
      ensures id.Some? && Row() == row
    {
      id := Some(row.id);
      userIp := row.userIp;
      uniqueId := row.uniqueId;
      userName := row.userName;
      content := row.content;
      timestamp := row.timestamp;
      messageType := row.messageType;
      recalled := row.recalled;
      recalledAt := row.recalledAt;
      fileId := row.fileId;
    }

    /** The row this entity is saved as. */
    function Row(): MessageRow
      reads this
      requires id.Some?
    {
      MessageRow(id.value, userIp, uniqueId, userName, content, timestamp, messageType, recalled, recalledAt, fileId)
    }

    /** `recall()`: one-way to recalled, stamped, content replaced. */
    method Recall(now: int)
      modifies this
      ensures recalled && recalledAt == Some(now) && content == RecallSentinel
      ensures id == old(id) && userIp == old(userIp) && uniqueId == old(uniqueId) && userName == old(userName)
      ensures timestamp == old(timestamp) && messageType == old(messageType) && fileId == old(fileId)
      ensures id.Some? ==> Row() == Recalled(old(Row()), now)
    {
      recalled := true;
      recalledAt := Some(now);
      content := RecallSentinel;
    }
  }
}
