/** The message queries: each is a WHERE filter over the stored rows, an
    ORDER BY on the timestamp and, for the paged ones, a LIMIT. The database
    does not fix the order of rows with equal timestamps; this model breaks
    ties with a stable insertion sort, and no contract depends on that. */
module MessageRepository {
  import opened Lang
  import opened MessageEntity

  /** A page size `PageRequest.of(0, size)` accepts. */
  type PageSize = n: int | n >= 1 witness 1

  /** `recalled = false`. */
  predicate IsActive(m: MessageRow) {
    !m.recalled
  }

  /** The rows satisfying `keep`, in storage order: each kept row as often as
      it is stored, every other row not at all. */
  function Where(rows: seq<MessageRow>, keep: MessageRow -> bool): (r: seq<MessageRow>)
    ensures |r| <= |rows|
    ensures forall x :: multiset(r)[x] == if keep(x) then multiset(rows)[x] else 0
    ensures forall x :: x in r <==> x in rows && keep(x)
  {
    if rows == [] then []
    else
      var tail := Where(rows[1..], keep);
      assert rows == [rows[0]] + rows[1..];
      assert multiset(rows) == multiset{rows[0]} + multiset(rows[1..]);
      if keep(rows[0]) then [rows[0]] + tail else tail
  }

  /** `a` may come before `b` under ORDER BY timestamp DESC (`newestFirst`)
      or ASC. */
  predicate InOrder(a: MessageRow, b: MessageRow, newestFirst: bool) {
    if newestFirst then a.timestamp >= b.timestamp else a.timestamp <= b.timestamp
  }

  predicate Ordered(s: seq<MessageRow>, newestFirst: bool) {
    forall i, j :: 0 <= i < j < |s| ==> InOrder(s[i], s[j], newestFirst)
  }

  /** Puts `x` before the first row it may precede. */
  function Insert(x: MessageRow, s: seq<MessageRow>, newestFirst: bool): (r: seq<MessageRow>)
    requires Ordered(s, newestFirst)
    ensures Ordered(r, newestFirst)
    ensures multiset(r) == multiset(s) + multiset{x}
    ensures forall y :: y in r ==> y == x || y in s
  {
    if s == [] then [x]
    else if InOrder(x, s[0], newestFirst) then [x] + s
    else
      var tail := Insert(x, s[1..], newestFirst);
      assert s == [s[0]] + s[1..];
      assert forall y :: y in tail ==> InOrder(s[0], y, newestFirst);
      [s[0]] + tail
  }

  /** ORDER BY timestamp: the same rows, sorted. */
  function OrderByTimestamp(s: seq<MessageRow>, newestFirst: bool): (r: seq<MessageRow>)
    ensures Ordered(r, newestFirst)
    ensures multiset(r) == multiset(s)
    ensures |r| == |s|
  {
    if s == [] then []
    else
      assert s == [s[0]] + s[1..];
      var r := Insert(s[0], OrderByTimestamp(s[1..], newestFirst), newestFirst);
      assert |r| == |multiset(r)|;
      r
  }

  /** LIMIT n: the first `n` rows, or all of them when there are fewer. */
  function Take(s: seq<MessageRow>, n: nat): (r: seq<MessageRow>)
    ensures |r| == if |s| < n then |s| else n
    ensures r == s[..|r|]
  {
    if |s| <= n then s else s[..n]
  }

  /** `findRecentMessages`: one page of the non-recalled rows, newest first. */
  function FindRecentMessages(rows: seq<MessageRow>, page: PageSize): (r: seq<MessageRow>)
    ensures |r| <= page
    ensures Ordered(r, true)
    ensures forall x :: x in r ==> x in rows && !x.recalled
  {
    var sorted := OrderByTimestamp(Where(rows, IsActive), true);
    var r := Take(sorted, page);
    assert forall x :: x in r ==> x in multiset(sorted);
    r
  }

  /** `recalled = false AND timestamp < t`. */
  function ActiveBefore(t: Option<int>): MessageRow -> bool {
    (m: MessageRow) => !m.recalled && t.Some? && m.timestamp < t.value
  }

  /** `findMessagesBefore`: one page of the non-recalled rows sent strictly
      before `t`, newest first. A null `t` compares as unknown in SQL, so it
      selects nothing. */
  function FindMessagesBefore(rows: seq<MessageRow>, t: Option<int>, page: PageSize): (r: seq<MessageRow>)
    ensures |r| <= page
    ensures Ordered(r, true)
    ensures forall x :: x in r ==> x in rows && !x.recalled && t.Some? && x.timestamp < t.value
  {
    var sorted := OrderByTimestamp(Where(rows, ActiveBefore(t)), true);
    var r := Take(sorted, page);
    assert forall x :: x in r ==> x in multiset(sorted);
    r
  }

  /** `findByUserIpOrderByTimestampDesc`: every row of that sender, recalled
      ones included, newest first. A null address matches no row. */
  function FindByUserIpOrderByTimestampDesc(rows: seq<MessageRow>, userIp: Option<string>): (r: seq<MessageRow>)
    ensures Ordered(r, true)
    ensures forall x :: multiset(r)[x] == if userIp == Some(x.userIp) then multiset(rows)[x] else 0
  {
    OrderByTimestamp(Where(rows, (m: MessageRow) => userIp == Some(m.userIp)), true)
  }

  /** `countByRecalledFalse`. */
  function CountByRecalledFalse(rows: seq<MessageRow>): (n: nat)
    ensures n <= |rows|
    ensures n == |multiset(Where(rows, IsActive))|
  {
    |Where(rows, IsActive)|
  }

  /** `findAllActiveMessagesOrderByTimestamp`: exactly the non-recalled rows,
      oldest first. */
  function FindAllActiveMessagesOrderByTimestamp(rows: seq<MessageRow>): (r: seq<MessageRow>)
    ensures Ordered(r, false)
    ensures forall x :: multiset(r)[x] == if x.recalled then 0 else multiset(rows)[x]
    ensures |r| == CountByRecalledFalse(rows)
  {
    OrderByTimestamp(Where(rows, IsActive), false)
  }

  /** `findActiveMessageByIdAndUserIp`: the non-recalled row with that id
      sent from that address, or null. Ids are a primary key, so there is at
      most one; a null address matches no row. */
  function FindActiveMessageByIdAndUserIp(rows: seq<MessageRow>, id: int, userIp: Option<string>): (r: Option<MessageRow>)
    ensures r.Some? ==> r.value in rows && r.value.id == id && userIp == Some(r.value.userIp) && !r.value.recalled
    ensures r.None? <==> forall i :: 0 <= i < |rows| ==>
      !(rows[i].id == id && userIp == Some(rows[i].userIp) && !rows[i].recalled)
  {
    if rows == [] then None
    else if rows[0].id == id && userIp == Some(rows[0].userIp) && !rows[0].recalled then Some(rows[0])
    else
      var r := FindActiveMessageByIdAndUserIp(rows[1..], id, userIp);
      assert forall i :: 1 <= i < |rows| ==> rows[1..][i - 1] == rows[i];
      r
  }

  /** `findById`: the row with that id, or empty. */
  function FindById(rows: seq<MessageRow>, id: int): (r: Option<MessageRow>)
    ensures r.Some? ==> r.value in rows && r.value.id == id
    ensures r.None? <==> forall i :: 0 <= i < |rows| ==> rows[i].id != id
  {
    if rows == [] then None
    else if rows[0].id == id then Some(rows[0])
    else
      var r := FindById(rows[1..], id);
      assert forall i :: 1 <= i < |rows| ==> rows[1..][i - 1] == rows[i];
      r
  }

  // ------------------------------------------------------------------ properties

  /** In an ordered sequence every row of a prefix may precede every row
      after it. */
  lemma {:induction false} PrefixPrecedesRest(s: seq<MessageRow>, k: nat, newestFirst: bool)
    requires Ordered(s, newestFirst) && k <= |s|
    ensures forall x, y :: x in s[k..] && y in s[..k] ==> InOrder(y, x, newestFirst)
  {
    forall x, y | x in s[k..] && y in s[..k]
      ensures InOrder(y, x, newestFirst)
    {
      var j :| 0 <= j < |s[k..]| && s[k..][j] == x;
      var i :| 0 <= i < k && s[..k][i] == y;
      assert s[i] == y && s[k + j] == x;
    }
  }

  /** The first page of a newest-first ordering is the newest part of what
      was ordered: as many rows as the page allows, and none left off is
      newer than a row on the page. */
  lemma {:induction false} NewestPage(eligible: seq<MessageRow>, page: PageSize)
    ensures var r := Take(OrderByTimestamp(eligible, true), page);
      && |r| == (if |eligible| < page then |eligible| else page)
      && multiset(r) <= multiset(eligible)
      && forall x, y :: x in multiset(eligible) - multiset(r) && y in r ==> y.timestamp >= x.timestamp
  {
    var sorted := OrderByTimestamp(eligible, true);
    var r := Take(sorted, page);
    var k := |r|;
    assert sorted == r + sorted[k..];
    assert multiset(sorted) == multiset(r) + multiset(sorted[k..]);
    assert multiset(eligible) - multiset(r) == multiset(sorted[k..]);
    PrefixPrecedesRest(sorted, k, true);
    forall x, y | x in multiset(eligible) - multiset(r) && y in r
      ensures y.timestamp >= x.timestamp
    {
      assert x in sorted[k..];
      assert InOrder(y, x, true);
    }
  }

  /** The first page of recent messages is the newest part of the history: it
      holds as many rows as the page allows, and every non-recalled row left
      off the page is no newer than any row on it. */
  lemma {:induction false} RecentMessagesAreTheNewest(rows: seq<MessageRow>, page: PageSize)
    ensures var r := FindRecentMessages(rows, page);
      var active := multiset(Where(rows, IsActive));
      && |r| == (if CountByRecalledFalse(rows) < page then CountByRecalledFalse(rows) else page)
      && multiset(r) <= active
      && forall x, y :: x in active - multiset(r) && y in r ==> y.timestamp >= x.timestamp
  {
    NewestPage(Where(rows, IsActive), page);
  }

  /** The page of messages before `t` is the newest part of the history
      before `t`: as many non-recalled rows sent before `t` as the page
      allows, and every such row left off is no newer than any row on it. */
  lemma {:induction false} BeforeMessagesAreTheNewest(rows: seq<MessageRow>, t: Option<int>, page: PageSize)
    ensures var r := FindMessagesBefore(rows, t, page);
      var eligible := Where(rows, ActiveBefore(t));
      && |r| == (if |eligible| < page then |eligible| else page)
      && multiset(r) <= multiset(eligible)
      && forall x, y :: x in multiset(eligible) - multiset(r) && y in r ==> y.timestamp >= x.timestamp
  {
    NewestPage(Where(rows, ActiveBefore(t)), page);
  }
}
