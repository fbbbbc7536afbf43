/**
 The chat list: the three-disjunct SQL cursor predicate over the chat previews of
 one user, its three-key ORDER BY, and the walk a client makes by next_cursor.
 */
module ChatList {
  import opened Prelude
  import opened Keyset
  import opened Paging

  /** 'epoch'::timestamptz */
  const EPOCH := 0

  /** A row of v_chat_previews; settings and last message may be NULL. */
  datatype PreviewRow = PreviewRow(chatId: Uuid, isPinned: Option<bool>, lastMessageAt: Option<int>)

  datatype ChatPreview = ChatPreview(chatId: Uuid, isPinned: bool, lastMessageAt: Option<int>)

  datatype ChatCursor = ChatCursor(isPinned: bool, lastMessageAt: Option<int>, chatId: Uuid)

  /** One user's previews by chat id: `chat_participants` holds a user at most once per chat. */
  ghost predicate Valid(rows: map<Uuid, PreviewRow>) {
    forall id :: id in rows ==> rows[id].chatId == id
  }

  function Coalesce<T>(o: Option<T>, default: T): T {
    if o.Some? then o.value else default
  }

  function AsInt(b: bool): int { if b then 1 else 0 }

  /** The WHERE clause of `list_chats_for_user`, disjunct by disjunct. */
  predicate AfterCursor(row: PreviewRow, cursor: Option<ChatCursor>) {
    cursor.None? ||
    var c := cursor.value;
    var pinned := AsInt(Coalesce(row.isPinned, false));
    var at := Coalesce(row.lastMessageAt, EPOCH);
    || pinned < AsInt(c.isPinned)
    || (pinned == AsInt(c.isPinned) && at < Coalesce(c.lastMessageAt, EPOCH))
    || (pinned == AsInt(c.isPinned) && at == Coalesce(c.lastMessageAt, EPOCH) && row.chatId < c.chatId)
  }

  /** The ORDER BY clause: pinned first, then latest message, then chat id, all descending. */
  predicate ListedBefore(x: PreviewRow, y: PreviewRow) {
    var px, py := Coalesce(x.isPinned, false), Coalesce(y.isPinned, false);
    var ax, ay := Coalesce(x.lastMessageAt, EPOCH), Coalesce(y.lastMessageAt, EPOCH);
    if px != py then px
    else if ax != ay then ax > ay
    else x.chatId > y.chatId
  }

  function RowKey(row: PreviewRow): Key {
    Key(AsInt(Coalesce(row.isPinned, false)), Coalesce(row.lastMessageAt, EPOCH), row.chatId)
  }

  function CursorKey(c: ChatCursor): Key {
    Key(AsInt(c.isPinned), Coalesce(c.lastMessageAt, EPOCH), c.chatId)
  }

  function Keys(rows: map<Uuid, PreviewRow>): set<Key> {
    set id | id in rows :: RowKey(rows[id])
  }

  function ToPreview(row: PreviewRow): ChatPreview {
    ChatPreview(row.chatId, Coalesce(row.isPinned, false), row.lastMessageAt)
  }

  function BuildCursor(item: ChatPreview): ChatCursor {
    ChatCursor(item.isPinned, item.lastMessageAt, item.chatId)
  }

  /** The rows a query selects, as keys. */
  function Selected(rows: map<Uuid, PreviewRow>, cursor: Option<ChatCursor>): set<Key> {
    set id | id in rows && AfterCursor(rows[id], cursor) :: RowKey(rows[id])
  }

  /** The repository query. */
  function ListChatsForUser(rows: map<Uuid, PreviewRow>, cursor: Option<ChatCursor>, limit: int): (items: seq<ChatPreview>)
    requires Valid(rows)
    ensures |items| <= MAX_PAGE
  {
    var keys := Top(Selected(rows, cursor), Clamp(limit, 1, MAX_PAGE));
    assert forall i :: 0 <= i < |keys| ==> keys[i].id in rows by {
      forall i | 0 <= i < |keys| ensures keys[i].id in rows {
        DescMember(Selected(rows, cursor), i);
      }
    }
    seq(|keys|, i requires 0 <= i < |keys| => ToPreview(rows[keys[i].id]))
  }

  datatype ListChatsResponse = ListChatsResponse(items: seq<ChatPreview>, next: Option<ChatCursor>, hasMore: bool)

  /** The previews of a list of keys, and keys that lead back to them as cursors. */
  ghost predicate Shows(rows: map<Uuid, PreviewRow>, items: seq<ChatPreview>, keys: seq<Key>) {
    && |items| == |keys|
    && forall i :: 0 <= i < |keys| ==>
         && keys[i].id in rows
         && items[i] == ToPreview(rows[keys[i].id])
         && keys[i] == CursorKey(BuildCursor(items[i]))
  }

  lemma {:induction false} ShowsPrefix(rows: map<Uuid, PreviewRow>, items: seq<ChatPreview>, keys: seq<Key>, n: nat)
    requires Shows(rows, items, keys) && n <= |keys|
    ensures Shows(rows, items[..n], keys[..n])
  {
  }

  lemma {:induction false} LastShown(rows: map<Uuid, PreviewRow>, items: seq<ChatPreview>, keys: seq<Key>)
    requires Shows(rows, items, keys) && items != []
    ensures CursorKey(BuildCursor(items[|items| - 1])) == keys[|keys| - 1]
  {
  }

  /** What the response says about the keys it was cut from. */
  ghost predicate Shown(rows: map<Uuid, PreviewRow>, r: ListChatsResponse, page: Page) {
    r.hasMore == page.hasMore && KeyOf(r.next) == page.next && Shows(rows, r.items, page.items)
  }

  /** `items.truncate(limit)`, and the next cursor from the last item; `keys` are the items' keys. */
  method TruncateItems(rows: map<Uuid, PreviewRow>, fetched: seq<ChatPreview>, limit: nat, ghost keys: seq<Key>)
    returns (r: ListChatsResponse)
    requires Shows(rows, fetched, keys)
    ensures Shown(rows, r, Truncate(keys, limit))
  {
    var items := fetched;
    ghost var kept := keys;
    var hasMore := |items| > limit;
    if hasMore {
      ShowsPrefix(rows, items, keys, limit);
      kept := keys[..limit];
      items := items[..limit];
    }
    var next := None;
    if items != [] {
      next := Some(BuildCursor(items[|items| - 1]));
      LastShown(rows, items, kept);
    }
    r := ListChatsResponse(items, next, hasMore);
  }

  /** The query returns the previews of the keys that the paging protocol fetches. */
  lemma {:induction false} QueryKeys(rows: map<Uuid, PreviewRow>, cursor: Option<ChatCursor>, limit: int)
    requires Valid(rows)
    ensures Shows(rows, ListChatsForUser(rows, cursor, limit), Fetch(Keys(rows), KeyOf(cursor), limit))
  {
    SelectedIsUnder(rows, cursor);
    var keys := Fetch(Keys(rows), KeyOf(cursor), limit);
    forall i | 0 <= i < |keys|
      ensures keys[i].id in rows && keys[i] == RowKey(rows[keys[i].id])
    {
      DescMember(Selected(rows, cursor), i);
    }
  }

  /** The repository's rows, truncated. */
  method FetchChats(rows: map<Uuid, PreviewRow>, cursor: Option<ChatCursor>, limit: nat) returns (r: ListChatsResponse)
    requires Valid(rows)
    ensures Shown(rows, r, Truncate(Fetch(Keys(rows), KeyOf(cursor), limit + 1), limit))
  {
    var items := ListChatsForUser(rows, cursor, limit + 1);
    QueryKeys(rows, cursor, limit + 1);
    r := TruncateItems(rows, items, limit, Fetch(Keys(rows), KeyOf(cursor), limit + 1));
  }

  /** The handler: one row more than asked for, truncated, cursor from the last row kept. */
  method ListChats(rows: map<Uuid, PreviewRow>, cursor: Option<ChatCursor>, requested: Option<int>)
    returns (r: ListChatsResponse)
    requires Valid(rows)
    ensures var page := Respond(Keys(rows), KeyOf(cursor), Coalesce(requested, 20));
            && r.hasMore == page.hasMore
            && KeyOf(r.next) == page.next
            && Shows(rows, r.items, page.items)
  {
    var limit := Clamp(Coalesce(requested, 20), 1, MAX_PAGE);
    r := FetchChats(rows, cursor, limit);
  }

  function KeyOf(cursor: Option<ChatCursor>): Option<Key> {
    if cursor.None? then None else Some(CursorKey(cursor.value))
  }

  /** The SQL predicate against the cursor of an earlier item is exactly "listed after that item". */
  lemma {:induction false} CursorIsSuccessor(item: PreviewRow, row: PreviewRow)
    ensures AfterCursor(row, Some(BuildCursor(ToPreview(item)))) <==> ListedBefore(item, row)
    ensures ListedBefore(item, row) <==> Less(RowKey(row), RowKey(item))
  {
    assert Coalesce(item.isPinned, false) ==> AsInt(Coalesce(item.isPinned, false)) == 1;
  }

  lemma {:induction false} SelectedIsUnder(rows: map<Uuid, PreviewRow>, cursor: Option<ChatCursor>)
    ensures Selected(rows, cursor) == Under(Keys(rows), KeyOf(cursor))
  {
    forall id | id in rows ensures AfterCursor(rows[id], cursor) <==> RowKey(rows[id]) in Under(Keys(rows), KeyOf(cursor)) {
      assert RowKey(rows[id]) in Keys(rows);
    }
  }

  /** The client's walk: the chats on each page, following `next_cursor` while `has_more` is set. */
  function Walk(rows: map<Uuid, PreviewRow>, limit: int): seq<Key> {
    Flatten(Follow(Keys(rows), None, limit))
  }

  /**
   Over a fixed table and any page size below 50, the walk lists every chat of the
   user exactly once, in ORDER BY order, with all pinned chats first.
   */
  lemma {:induction false} WalkListsEveryChatOnce(rows: map<Uuid, PreviewRow>, limit: int)
    requires Valid(rows) && Clamp(limit, 1, MAX_PAGE) < MAX_PAGE
    ensures var w := Walk(rows, limit);
            && |w| == |rows|
            && (forall id :: id in rows ==> RowKey(rows[id]) in w)
            && (forall i :: 0 <= i < |w| ==> w[i].id in rows && w[i] == RowKey(rows[w[i].id]))
            && (forall i, j :: 0 <= i < j < |w| ==> ListedBefore(rows[w[i].id], rows[w[j].id]) && w[i].id != w[j].id)
            && (forall i, j :: 0 <= i < j < |w| && w[j].major == 1 ==> w[i].major == 1)
  {
    FollowLists(Keys(rows), None, limit);
    var w := Walk(rows, limit);
    assert w == Desc(Keys(rows));
    DescSorted(Keys(rows));
    KeyCount(rows, rows.Keys);
    assert Keys(rows) == set id | id in rows.Keys :: RowKey(rows[id]);
    assert |rows| == |rows.Keys|;
    forall i | 0 <= i < |w| ensures w[i].id in rows && w[i] == RowKey(rows[w[i].id]) {
      DescMember(Keys(rows), i);
    }
    forall i, j | 0 <= i < j < |w|
      ensures ListedBefore(rows[w[i].id], rows[w[j].id]) && w[i].id != w[j].id
    {
      assert Less(w[j], w[i]);
      CursorIsSuccessor(rows[w[i].id], rows[w[j].id]);
    }
    forall i, j | 0 <= i < j < |w| && w[j].major == 1 ensures w[i].major == 1 {
      assert Less(w[j], w[i]);
    }
  }

  /** Distinct chats have distinct keys. */
  lemma {:induction false} KeyCount(rows: map<Uuid, PreviewRow>, ids: set<Uuid>)
    requires Valid(rows) && ids <= rows.Keys
    ensures |set id | id in ids :: RowKey(rows[id])| == |ids|
  {
    var keys := set id | id in ids :: RowKey(rows[id]);
    if ids == {} {
      assert keys == {};
    } else {
      var id := Element(ids);
      var rest := ids - {id};
      var restKeys := set r | r in rest :: RowKey(rows[r]);
      KeyCount(rows, rest);
      assert RowKey(rows[id]) !in restKeys;
      assert keys == restKeys + {RowKey(rows[id])};
    }
  }

  /** At the maximum page size, `has_more` is never set, so a client must walk to an empty page. */
  lemma {:induction false} WalkAtMaximum(rows: map<Uuid, PreviewRow>, limit: int)
    requires Valid(rows) && limit >= MAX_PAGE
    ensures |Walk(rows, limit)| == |rows| <==> |rows| <= MAX_PAGE
    ensures Flatten(Exhaust(Keys(rows), None, limit)) == Desc(Keys(rows))
  {
    FollowLists(Keys(rows), None, limit);
    ExhaustListsAll(Keys(rows), None, limit);
    KeyCount(rows, rows.Keys);
    assert Keys(rows) == set id | id in rows.Keys :: RowKey(rows[id]);
    assert |rows| == |rows.Keys|;
  }
}
