/** The message service: saving a message, owner-only recall, and the history
    queries, over a store that holds the rows of the chat_messages table and
    the next value of its IDENTITY column. */
module MessageService {
  import opened Lang
  import opened MessageEntity
  import opened MessageRepository

  /** No two stored rows share an id. */
  predicate UniqueIds(rows: seq<MessageRow>) {
    forall i, j :: 0 <= i < j < |rows| ==> rows[i].id != rows[j].id
  }

  /** `save` of an entity that already has an id: the row with that id is
      overwritten, every other row is kept. */
  function ReplaceById(rows: seq<MessageRow>, m: MessageRow): (r: seq<MessageRow>)
    ensures |r| == |rows|
    ensures forall i :: 0 <= i < |rows| ==> r[i] == if rows[i].id == m.id then m else rows[i]
  {
    if rows == [] then []
    else [if rows[0].id == m.id then m else rows[0]] + ReplaceById(rows[1..], m)
  }

  /** What `recallMessage` returns: the recalled row when a non-recalled row
      with that id was sent from `userIp`, null otherwise. */
  function RecallOutcome(rows: seq<MessageRow>, id: int, userIp: Option<string>, now: int): Option<MessageRow> {
    match FindActiveMessageByIdAndUserIp(rows, id, userIp)
    case None => None
    case Some(m) => Some(Recalled(m, now))
  }

  /** The rows after `recallMessage`. */
  function AfterRecall(rows: seq<MessageRow>, id: int, userIp: Option<string>, now: int): seq<MessageRow> {
    match RecallOutcome(rows, id, userIp, now)
    case None => rows
    case Some(m) => ReplaceById(rows, m)
  }

  // ------------------------------------------------------------------ the store

  class ChatService {
    /** The chat_messages table, in insertion order. */
    var rows: seq<MessageRow>
    /** The id the next saved message receives. */
    var nextId: nat

    /** Ids are handed out in increasing order from 1 and never reused. */
    ghost predicate Valid()
      reads this
    {
      && nextId >= 1
      && (forall i, j :: 0 <= i < j < |rows| ==> rows[i].id < rows[j].id)
      && (forall i :: 0 <= i < |rows| ==> 1 <= rows[i].id < nextId)
    }

    constructor ()
      ensures Valid() && rows == [] && nextId == 1
    {
      rows := [];
      nextId := 1;
    }

    /** `saveMessage`: a new, non-recalled message carrying the given fields,
        stamped `now`, with the file id set only when one is given. A null
        content violates the column's NOT NULL constraint and nothing is
        stored. */
    method SaveMessage(userIp: string, uniqueId: Option<string>, userName: string, content: Option<string>,
                       messageType: MessageType, fileId: Option<int>, now: int)
      returns (r: Result<MessageRow>)
      requires Valid()
      modifies this
      ensures Valid()
      ensures content.None? ==> r == Thrown(ConstraintViolation) && rows == old(rows) && nextId == old(nextId)
      ensures content.Some? ==> r.Ok? && rows == old(rows) + [r.value] && nextId == old(nextId) + 1
      ensures r.Ok? ==> r.value == MessageRow(old(nextId), userIp, uniqueId, userName, content.value, now,
                                              messageType, false, None, fileId)
      ensures r.Ok? ==> forall x :: x in old(rows) ==> x.id < r.value.id
      ensures r.Ok? ==> GetMessageById(r.value.id) == Some(r.value)
    {
      if content.None? {
        return Thrown(ConstraintViolation);
      }
      var message := new ChatMessage(userIp, userName, content.value, messageType, now);
      message.uniqueId := uniqueId;
      if fileId.Some? {
        message.fileId := fileId;
      }
      message.id := Some(nextId);
      var saved := message.Row();
      rows := rows + [saved];
      nextId := nextId + 1;
      r := Ok(saved);
      assert rows[|rows| - 1] == saved;
    }

    /** `recallMessage`: loads the sender's non-recalled message with that
        id, recalls it and saves it back; null when there is none. */
    method RecallMessage(messageId: int, userIp: Option<string>, now: int) returns (r: Option<MessageRow>)
      requires Valid()
      modifies this
      ensures Valid() && nextId == old(nextId)
      ensures r == RecallOutcome(old(rows), messageId, userIp, now)
      ensures rows == AfterRecall(old(rows), messageId, userIp, now)
    {
      var found := FindActiveMessageByIdAndUserIp(rows, messageId, userIp);
      if found.None? {
        return None;
      }
      var message := new ChatMessage.Load(found.value);
      message.Recall(now);
      var saved := message.Row();
      assert saved.id == found.value.id;
      rows := ReplaceById(rows, saved);
      r := Some(saved);
    }

    /** `getRecentMessages`: at most `limit` non-recalled messages, newest
        first; a limit below one is refused by the page request. */
    function GetRecentMessages(limit: int): (r: Result<seq<MessageRow>>)
      reads this
      ensures r.Thrown? <==> limit < 1
      ensures r.Thrown? ==> r.ex == IllegalArgument
      ensures r.Ok? ==> |r.value| <= limit && Ordered(r.value, true)
      ensures r.Ok? ==> forall x :: x in r.value ==> x in rows && !x.recalled
      ensures r.Ok? ==> r.value == FindRecentMessages(rows, limit)
    {
      if limit < 1 then Thrown(IllegalArgument) else Ok(FindRecentMessages(rows, limit))
    }

    /** `getMessagesBefore`: at most `limit` non-recalled messages sent before
        `timestamp`, newest first. */
    function GetMessagesBefore(timestamp: Option<int>, limit: int): (r: Result<seq<MessageRow>>)
      reads this
      ensures r.Thrown? <==> limit < 1
      ensures r.Thrown? ==> r.ex == IllegalArgument
      ensures r.Ok? ==> |r.value| <= limit && Ordered(r.value, true)
      ensures r.Ok? ==> forall x :: x in r.value ==> x in rows && !x.recalled && timestamp.Some? && x.timestamp < timestamp.value
      ensures r.Ok? ==> r.value == FindMessagesBefore(rows, timestamp, limit)
    {
      if limit < 1 then Thrown(IllegalArgument) else Ok(FindMessagesBefore(rows, timestamp, limit))
    }

    /** `getMessagesByUser`: all messages from that address, recalled ones
        included, newest first. */
    function GetMessagesByUser(userIp: Option<string>): (r: seq<MessageRow>)
      reads this
      ensures Ordered(r, true)
      ensures forall x :: x in r <==> x in rows && userIp == Some(x.userIp)
    {
      var r := FindByUserIpOrderByTimestampDesc(rows, userIp);
      assert forall x :: x in r <==> multiset(r)[x] > 0;
      r
    }

    /** `getAllActiveMessages`: every non-recalled message, oldest first. */
    function GetAllActiveMessages(): (r: seq<MessageRow>)
      reads this
      ensures Ordered(r, false)
      ensures forall x :: x in r <==> x in rows && !x.recalled
    {
      var r := FindAllActiveMessagesOrderByTimestamp(rows);
      assert forall x :: x in r <==> multiset(r)[x] > 0;
      r
    }

    /** `getTotalMessageCount`: the number of non-recalled messages. */
    function GetTotalMessageCount(): (n: nat)
      reads this
      ensures n <= |rows|
      ensures n == |GetAllActiveMessages()|
    {
      CountByRecalledFalse(rows)
    }

    /** `getMessageById`: the message with that id, recalled or not. */
    function GetMessageById(messageId: int): (r: Option<MessageRow>)
      reads this
      ensures r.Some? ==> r.value in rows && r.value.id == messageId
      ensures r.None? <==> forall i :: 0 <= i < |rows| ==> rows[i].id != messageId
    {
      FindById(rows, messageId)
    }
  }

  // ------------------------------------------------------------------ properties

  /** A recall succeeds exactly when a non-recalled row with that id was sent
      from the given address; otherwise it returns null and stores nothing. */
  lemma {:induction false} RecallAuthorisation(rows: seq<MessageRow>, id: int, userIp: Option<string>, now: int)
    ensures RecallOutcome(rows, id, userIp, now).Some? <==>
      exists i :: 0 <= i < |rows| && rows[i].id == id && userIp == Some(rows[i].userIp) && !rows[i].recalled
    ensures RecallOutcome(rows, id, userIp, now).None? ==> AfterRecall(rows, id, userIp, now) == rows
  {
    var found := FindActiveMessageByIdAndUserIp(rows, id, userIp);
    if found.Some? {
      var i :| 0 <= i < |rows| && rows[i] == found.value;
    }
  }

  /** A recall from an address that did not send the message changes no row. */
  lemma {:induction false} RecallByAnotherAddressChangesNothing(rows: seq<MessageRow>, id: int, userIp: Option<string>, now: int)
    requires forall i :: 0 <= i < |rows| && rows[i].id == id ==> userIp != Some(rows[i].userIp)
    ensures RecallOutcome(rows, id, userIp, now) == None
    ensures AfterRecall(rows, id, userIp, now) == rows
  {
    RecallAuthorisation(rows, id, userIp, now);
  }

  /** A successful recall replaces the one matching row by its recalled form
      and touches no other row. */
  lemma {:induction false} RecallEffect(rows: seq<MessageRow>, id: int, userIp: Option<string>, now: int)
    returns (k: nat)
    requires UniqueIds(rows)
    requires RecallOutcome(rows, id, userIp, now).Some?
    ensures k < |rows| && rows[k].id == id && userIp == Some(rows[k].userIp) && !rows[k].recalled
    ensures RecallOutcome(rows, id, userIp, now) == Some(Recalled(rows[k], now))
    ensures AfterRecall(rows, id, userIp, now) == rows[k := Recalled(rows[k], now)]
  {
    var m := FindActiveMessageByIdAndUserIp(rows, id, userIp).value;
    k :| 0 <= k < |rows| && rows[k] == m;
    var after := AfterRecall(rows, id, userIp, now);
    assert after == ReplaceById(rows, Recalled(m, now));
    forall i | 0 <= i < |rows|
      ensures after[i] == rows[k := Recalled(rows[k], now)][i]
    {
      if i != k {
        assert rows[i].id != rows[k].id;
      }
    }
  }

  /** Recall is idempotent on the store: a second recall of the same message
      returns null and changes nothing. */
  lemma {:induction false} RecallIdempotent(rows: seq<MessageRow>, id: int, userIp: Option<string>, t1: int, t2: int)
    requires UniqueIds(rows)
    ensures var after := AfterRecall(rows, id, userIp, t1);
      RecallOutcome(after, id, userIp, t2).None? && AfterRecall(after, id, userIp, t2) == after
  {
    var after := AfterRecall(rows, id, userIp, t1);
    if RecallOutcome(rows, id, userIp, t1).None? {
      RecallAuthorisation(rows, id, userIp, t2);
    } else {
      var k := RecallEffect(rows, id, userIp, t1);
      OnlyRecalledRowHasId(rows, k, t1);
      RecallAuthorisation(after, id, userIp, t2);
    }
  }

  /** The non-recalled rows after a successful recall are those before it,
      less the recalled one. */
  lemma {:induction false} ActiveRowsAfterRecall(rows: seq<MessageRow>, k: nat, now: int)
    requires k < |rows| && !rows[k].recalled
    ensures multiset(Where(rows[k := Recalled(rows[k], now)], IsActive)) + multiset{rows[k]}
      == multiset(Where(rows, IsActive))
  {
    var after := rows[k := Recalled(rows[k], now)];
    assert multiset(after) == multiset(rows) - multiset{rows[k]} + multiset{Recalled(rows[k], now)};
    var a := multiset(Where(after, IsActive)) + multiset{rows[k]};
    var b := multiset(Where(rows, IsActive));
    forall x
      ensures a[x] == b[x]
    {
      if x == Recalled(rows[k], now) {
        assert x.recalled;
      }
    }
    assert a == b;
  }

  /** Recalling row `k` keeps ids unique: the recalled row is the only one
      with its id. */
  lemma {:induction false} OnlyRecalledRowHasId(rows: seq<MessageRow>, k: nat, now: int)
    requires UniqueIds(rows) && k < |rows|
    ensures forall x :: x in rows[k := Recalled(rows[k], now)] && x.id == rows[k].id ==> x == Recalled(rows[k], now)
  {
    var after := rows[k := Recalled(rows[k], now)];
    forall x | x in after && x.id == rows[k].id
      ensures x == Recalled(rows[k], now)
    {
      var i :| 0 <= i < |after| && after[i] == x;
    }
  }

  /** When every row with an id is recalled, no page of recent or earlier
      messages holds that id. */
  lemma {:induction false} RecalledIdOffEveryPage(rows: seq<MessageRow>, id: int, page: PageSize, before: Option<int>)
    requires forall x :: x in rows && x.id == id ==> x.recalled
    ensures forall x :: x in FindRecentMessages(rows, page) ==> x.id != id
    ensures forall x :: x in FindMessagesBefore(rows, before, page) ==> x.id != id
  {
  }

  /** Recalling row `k` lowers the count of non-recalled messages by one. */
  lemma {:induction false} RecallLowersCount(rows: seq<MessageRow>, k: nat, now: int)
    requires k < |rows| && !rows[k].recalled
    ensures CountByRecalledFalse(rows[k := Recalled(rows[k], now)]) == CountByRecalledFalse(rows) - 1
  {
    ActiveRowsAfterRecall(rows, k, now);
    var active := multiset(Where(rows[k := Recalled(rows[k], now)], IsActive));
    assert |active + multiset{rows[k]}| == |active| + 1;
  }

  /** After recalling row `k` its id finds the recalled row. */
  lemma {:induction false} RecalledRowFoundById(rows: seq<MessageRow>, k: nat, now: int)
    requires UniqueIds(rows) && k < |rows|
    ensures FindById(rows[k := Recalled(rows[k], now)], rows[k].id) == Some(Recalled(rows[k], now))
  {
    var after := rows[k := Recalled(rows[k], now)];
    OnlyRecalledRowHasId(rows, k, now);
    assert after[k] == Recalled(rows[k], now);
  }

  /** After a successful recall the message leaves the history: no page of
      recent or earlier messages contains its id, the count of messages drops
      by one, and the row is still stored, in its recalled form. */
  lemma {:induction false} RecalledMessageLeavesHistory(rows: seq<MessageRow>, id: int, userIp: Option<string>, now: int,
                                                       page: PageSize, before: Option<int>)
    requires UniqueIds(rows)
    requires RecallOutcome(rows, id, userIp, now).Some?
    ensures var after := AfterRecall(rows, id, userIp, now);
      && (forall x :: x in FindRecentMessages(after, page) ==> x.id != id)
      && (forall x :: x in FindMessagesBefore(after, before, page) ==> x.id != id)
      && CountByRecalledFalse(after) == CountByRecalledFalse(rows) - 1
      && FindById(after, id) == RecallOutcome(rows, id, userIp, now)
  {
    var k := RecallEffect(rows, id, userIp, now);
    OnlyRecalledRowHasId(rows, k, now);
    RecalledIdOffEveryPage(rows[k := Recalled(rows[k], now)], id, page, before);
    RecallLowersCount(rows, k, now);
    RecalledRowFoundById(rows, k, now);
  }
}
