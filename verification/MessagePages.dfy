/**
 Message history: the repository pages a chat's undeleted messages before or after a
 cursor in (created_at, id) order; the handler truncates what the repository returns.
 */
module MessagePages {
  import opened Prelude
  import opened Keyset
  import opened Paging

  datatype Message = Message(chatId: Uuid, createdAt: int, deleted: bool)

  datatype MessageCursor = MessageCursor(createdAt: int, messageId: Uuid)

  datatype Direction = Before | After

  /** The messages a listing of this chat can show, by (created_at, id). */
  function Visible(table: map<Uuid, Message>, chat: Uuid): set<Key> {
    set id | id in table && table[id].chatId == chat && !table[id].deleted :: Key(0, table[id].createdAt, id)
  }

  function KeyOf(c: Option<MessageCursor>): Option<Key> {
    if c.None? then None else Some(Key(0, c.value.createdAt, c.value.messageId))
  }

  /** The WHERE clause: row comparison of (created_at, id) with the cursor. */
  predicate InRange(id: Uuid, m: Message, cursor: Option<MessageCursor>, direction: Direction) {
    cursor.None? ||
    var c := cursor.value;
    match direction
    case Before => m.createdAt < c.createdAt || (m.createdAt == c.createdAt && id < c.messageId)
    case After => m.createdAt > c.createdAt || (m.createdAt == c.createdAt && id > c.messageId)
  }

  function Selected(table: map<Uuid, Message>, chat: Uuid, cursor: Option<MessageCursor>, direction: Direction): set<Key> {
    set id | id in table && table[id].chatId == chat && !table[id].deleted && InRange(id, table[id], cursor, direction)
      :: Key(0, table[id].createdAt, id)
  }

  /** `ORDER BY ... ASC LIMIT n`. */
  function Bottom(s: set<Key>, n: nat): seq<Key> {
    if n <= |s| then Asc(s)[..n] else Asc(s)
  }

  /** The repository query; a "before" page is reversed into chronological order. */
  function ListMessages(table: map<Uuid, Message>, chat: Uuid, cursor: Option<MessageCursor>,
                        direction: Direction, limit: int): seq<Key> {
    var n := Clamp(limit, 1, MAX_PAGE);
    match direction
    case Before => Reverse(Top(Selected(table, chat, cursor, Before), n))
    case After => Bottom(Selected(table, chat, cursor, After), n)
  }

  function Limit(requested: Option<int>): int {
    Clamp(if requested.Some? then requested.value else 50, 1, MAX_PAGE)
  }

  /** The handler truncates the tail of the page and continues from its last row in both directions. */
  function Handle(table: map<Uuid, Message>, chat: Uuid, cursor: Option<MessageCursor>,
                  direction: Direction, requested: Option<int>): Page {
    var limit := Limit(requested);
    Truncate(ListMessages(table, chat, cursor, direction, limit + 1), limit)
  }

  datatype ListError = BadDirection

  /** The direction parameter is optional, and anything but "before" or "after" is refused. */
  function Parsed(direction: Option<string>): Result<Direction, ListError> {
    if direction.None? || direction.value == "before" then Ok(Before)
    else if direction.value == "after" then Ok(After)
    else Err(BadDirection)
  }

  method ListPage(table: map<Uuid, Message>, chat: Uuid, cursor: Option<MessageCursor>,
                  direction: Direction, requested: Option<int>) returns (p: Page)
    ensures p == Handle(table, chat, cursor, direction, requested)
  {
    var limit := Limit(requested);
    var rows := ListMessages(table, chat, cursor, direction, limit + 1);
    p := TruncatePage(rows, limit);
  }

  /** The endpoint itself. */
  method ListChatMessages(table: map<Uuid, Message>, chat: Uuid, cursor: Option<MessageCursor>,
                          direction: Option<string>, requested: Option<int>) returns (r: Result<Page, ListError>)
    ensures Parsed(direction).Ok? ==> r == Ok(Handle(table, chat, cursor, Parsed(direction).value, requested))
    ensures Parsed(direction).Err? ==> r == Err(BadDirection)
  {
    var way := Parsed(direction);
    if way.Err? {
      return Err(BadDirection);
    }
    var p := ListPage(table, chat, cursor, way.value, requested);
    return Ok(p);
  }

  /** 50 messages a page unless fewer are asked for, and at least one. */
  lemma LimitMeaning(requested: Option<int>)
    ensures requested == None ==> Limit(requested) == 50
    ensures requested.Some? ==>
              Limit(requested) == if requested.value < 1 then 1 else if requested.value > 50 then 50 else requested.value
  {
  }

  // ---- Pages as slices of the chat's key set -----------------------------------

  function Over(s: set<Key>, c: Option<Key>): set<Key> {
    if c.None? then s else Above(s, c.value)
  }

  function BeforePage(s: set<Key>, c: Option<Key>, limit: int): seq<Key> {
    Reverse(Top(Under(s, c), Clamp(limit, 1, MAX_PAGE)))
  }

  function AfterPage(s: set<Key>, c: Option<Key>, limit: int): seq<Key> {
    Bottom(Over(s, c), Clamp(limit, 1, MAX_PAGE))
  }

  /** The SQL cursor predicates select exactly the messages strictly below or above the cursor. */
  lemma {:induction false} QueryIsPage(table: map<Uuid, Message>, chat: Uuid, cursor: Option<MessageCursor>, limit: int)
    ensures Selected(table, chat, cursor, Before) == Under(Visible(table, chat), KeyOf(cursor))
    ensures Selected(table, chat, cursor, After) == Over(Visible(table, chat), KeyOf(cursor))
    ensures ListMessages(table, chat, cursor, Before, limit) == BeforePage(Visible(table, chat), KeyOf(cursor), limit)
    ensures ListMessages(table, chat, cursor, After, limit) == AfterPage(Visible(table, chat), KeyOf(cursor), limit)
  {
    forall id | id in table && table[id].chatId == chat && !table[id].deleted
      ensures var k := Key(0, table[id].createdAt, id);
              && (InRange(id, table[id], cursor, Before) <==> k in Under(Visible(table, chat), KeyOf(cursor)))
              && (InRange(id, table[id], cursor, After) <==> k in Over(Visible(table, chat), KeyOf(cursor)))
    {
      assert Key(0, table[id].createdAt, id) in Visible(table, chat);
    }
  }

  lemma {:induction false} BeforeStep(s: set<Key>, c: Option<Key>, limit: int)
    requires Under(s, c) != {}
    ensures var page := BeforePage(s, c, limit);
            && page != []
            && |Under(s, Some(page[0]))| < |Under(s, c)|
            && Asc(Under(s, c)) == Asc(Under(s, Some(page[0]))) + page
  {
    var pending := Under(s, c);
    var top := Top(pending, Clamp(limit, 1, MAX_PAGE));
    PageCut(s, c, |top|);
    var d := Desc(pending);
    assert top == d[..|top|];
    ReverseConcat(d[..|top|], d[|top|..]);
  }

  /** Cutting after the first n rows above a cursor. */
  lemma {:induction false} AscendingCut(s: set<Key>, c: Option<Key>, n: nat)
    requires 0 < n <= |Over(s, c)|
    ensures var a := Asc(Over(s, c));
            && Asc(Over(s, Some(a[n - 1]))) == a[n..]
            && |Over(s, Some(a[n - 1]))| == |Over(s, c)| - n
  {
    var pending := Over(s, c);
    CutAscending(pending, n - 1);
    AboveOver(s, c, Asc(pending)[n - 1]);
    assert |Asc(Over(s, Some(Asc(pending)[n - 1])))| == |pending| - n;
  }

  lemma {:induction false} AboveOver(s: set<Key>, c: Option<Key>, k: Key)
    requires k in Over(s, c)
    ensures Above(Over(s, c), k) == Over(s, Some(k))
  {
  }

  lemma {:induction false} AfterStep(s: set<Key>, c: Option<Key>, limit: int)
    requires Over(s, c) != {}
    ensures var page := AfterPage(s, c, limit);
            && page != []
            && |Over(s, Some(page[|page| - 1]))| < |Over(s, c)|
            && Asc(Over(s, c)) == page + Asc(Over(s, Some(page[|page| - 1])))
  {
    var a := Asc(Over(s, c));
    var n := |AfterPage(s, c, limit)|;
    assert AfterPage(s, c, limit) == a[..n];
    AscendingCut(s, c, n);
    assert a == a[..n] + a[n..];
  }

  lemma {:induction false} PageWithin(table: map<Uuid, Message>, chat: Uuid, cursor: Option<MessageCursor>, direction: Direction, limit: int, k: Key)
    requires k in ListMessages(table, chat, cursor, direction, limit)
    ensures k in Selected(table, chat, cursor, direction)
  {
    var s := Selected(table, chat, cursor, direction);
    DescSorted(s);
    match direction
    case Before =>
      ReverseMembers(Top(s, Clamp(limit, 1, MAX_PAGE)), k);
    case After =>
      ReverseMembers(Desc(s), k);
  }

  /** Asked for "before", or for nothing, the endpoint shows older messages than the cursor; asked for "after", newer ones. */
  lemma {:induction false} DirectionMeaning(table: map<Uuid, Message>, chat: Uuid, cursor: MessageCursor,
                                            direction: Option<string>, requested: Option<int>, k: Key)
    requires Parsed(direction).Ok? && k in Handle(table, chat, Some(cursor), Parsed(direction).value, requested).items
    ensures direction == None || direction == Some("before") || direction == Some("after")
    ensures var c := Key(0, cursor.createdAt, cursor.messageId);
            if direction == Some("after") then Less(c, k) else Less(k, c)
    ensures k.id in table && table[k.id] == Message(chat, k.time, false)
  {
    PageWithin(table, chat, Some(cursor), Parsed(direction).value, Limit(requested) + 1, k);
  }

  /** Without a cursor, "before" starts at the newest message and "after" at the oldest. */
  lemma {:induction false} FirstPages(table: map<Uuid, Message>, chat: Uuid, requested: Option<int>)
    requires |Visible(table, chat)| <= Limit(requested)
    ensures Parsed(None) == Ok(Before) && Parsed(Some("before")) == Ok(Before) && Parsed(Some("after")) == Ok(After)
    ensures Handle(table, chat, None, Before, requested).items == Asc(Visible(table, chat))
    ensures Handle(table, chat, None, After, requested).items == Asc(Visible(table, chat))
  {
    QueryIsPage(table, chat, None, Limit(requested) + 1);
  }

  // ---- Repository walks ----------------------------------------------------------

  /** Older messages: repository pages, each continued from its first row. */
  function BeforeWalk(s: set<Key>, c: Option<Key>, limit: int): seq<Key>
    decreases |Under(s, c)|
  {
    if Under(s, c) == {} then [] else
      var page := BeforePage(s, c, limit);
      BeforeStep(s, c, limit);
      BeforeWalk(s, Some(page[0]), limit) + page
  }

  /** Newer messages: repository pages, each continued from its last row. */
  function AfterWalk(s: set<Key>, c: Option<Key>, limit: int): seq<Key>
    decreases |Over(s, c)|
  {
    if Over(s, c) == {} then [] else
      var page := AfterPage(s, c, limit);
      AfterStep(s, c, limit);
      page + AfterWalk(s, Some(page[|page| - 1]), limit)
  }

  lemma {:induction false} BeforeWalkLists(s: set<Key>, c: Option<Key>, limit: int)
    ensures BeforeWalk(s, c, limit) == Asc(Under(s, c))
    decreases |Under(s, c)|
  {
    if Under(s, c) != {} {
      BeforeStep(s, c, limit);
      BeforeWalkLists(s, Some(BeforePage(s, c, limit)[0]), limit);
    }
  }

  lemma {:induction false} AfterWalkLists(s: set<Key>, c: Option<Key>, limit: int)
    ensures AfterWalk(s, c, limit) == Asc(Over(s, c))
    decreases |Over(s, c)|
  {
    if Over(s, c) != {} {
      var page := AfterPage(s, c, limit);
      AfterStep(s, c, limit);
      AfterWalkLists(s, Some(page[|page| - 1]), limit);
    }
  }

  /** An ascending listing holds each key once, in order. */
  lemma {:induction false} AscListsAll(s: set<Key>)
    ensures forall i, j :: 0 <= i < j < |Asc(s)| ==> Less(Asc(s)[i], Asc(s)[j])
    ensures forall k :: k in Asc(s) <==> k in s
  {
    DescSorted(s);
    forall k ensures k in Asc(s) <==> k in s {
      ReverseMembers(Desc(s), k);
    }
  }

  /**
   From any cursor, the before walk, the cursor's message if the chat still shows it, and the
   after walk together are the chat's undeleted messages in chronological order, each once,
   for every pair of page sizes.
   */
  lemma {:induction false} WalksMeet(table: map<Uuid, Message>, chat: Uuid, cursor: MessageCursor, older: int, newer: int)
    ensures var s := Visible(table, chat);
            var c := Key(0, cursor.createdAt, cursor.messageId);
            && Asc(s) == BeforeWalk(s, Some(c), older) + (if c in s then [c] else []) + AfterWalk(s, Some(c), newer)
            && (c in s <==> cursor.messageId in table
                            && table[cursor.messageId] == Message(chat, cursor.createdAt, false))
            && (forall i, j :: 0 <= i < j < |Asc(s)| ==> Less(Asc(s)[i], Asc(s)[j]))
            && (forall k :: k in Asc(s) <==> k in s)
  {
    var s := Visible(table, chat);
    var c := Key(0, cursor.createdAt, cursor.messageId);
    BeforeWalkLists(s, Some(c), older);
    AfterWalkLists(s, Some(c), newer);
    SplitAt(s, c);
    AscListsAll(s);
  }

  // ---- The handler -----------------------------------------------------------

  function HandleAfter(s: set<Key>, c: Option<Key>, requested: Option<int>): Page {
    Truncate(AfterPage(s, c, Limit(requested) + 1), Limit(requested))
  }

  lemma {:induction false} HandleAfterMeaning(s: set<Key>, c: Option<Key>, requested: Option<int>)
    ensures var p, pending := HandleAfter(s, c, requested), Over(s, c);
            && p.items == Bottom(pending, Limit(requested))
            && (p.next.None? <==> pending == {})
            && (p.next.Some? ==> p.items != [] && p.next.value == p.items[|p.items| - 1])
            && (p.hasMore <==> |pending| > Limit(requested) && Limit(requested) < MAX_PAGE)
  {
    var limit, a := Limit(requested), Asc(Over(s, c));
    if limit < MAX_PAGE && |a| > limit {
      assert AfterPage(s, c, limit + 1) == a[..limit + 1];
      assert a[..limit + 1][..limit] == a[..limit];
    }
  }

  lemma {:induction false} FirstTile(s: set<Key>, c: Option<Key>, n: nat, items: seq<Key>)
    requires n > 0 && Over(s, c) != {} && items == Bottom(Over(s, c), n)
    ensures items != [] && Asc(Over(s, c)) == items + Asc(Over(s, Some(items[|items| - 1])))
  {
    var a := Asc(Over(s, c));
    AscendingCut(s, c, |items|);
    assert items == a[..|items|] && a == a[..|items|] + a[|items|..];
  }

  lemma {:induction false} PageTiles(s: set<Key>, c: Option<Key>, n: nat, p: Page)
    requires n > 0 && p.items == Bottom(Over(s, c), n) && Over(s, c) != {}
    requires p.next.Some? ==> p.items != [] && p.next.value == p.items[|p.items| - 1]
    ensures p.next.Some? ==> Asc(Over(s, c)) == p.items + Asc(Over(s, p.next))
  {
    FirstTile(s, c, n, p.items);
  }

  lemma {:induction false} TilesAfter(s: set<Key>, c: Option<Key>, requested: Option<int>)
    ensures var p, pending := HandleAfter(s, c, requested), Over(s, c);
            && (p.next.None? <==> pending == {})
            && (p.next.Some? ==> Asc(pending) == p.items + Asc(Over(s, p.next)))
            && ((p.hasMore <==> |pending| > Limit(requested)) <==> Limit(requested) < MAX_PAGE || |pending| <= MAX_PAGE)
  {
    HandleAfterMeaning(s, c, requested);
    if Over(s, c) != {} {
      PageTiles(s, c, Limit(requested), HandleAfter(s, c, requested));
    }
  }

  /** Forwards, the handler's pages tile the newer messages; only a full page of 50 hides that more remain. */
  lemma {:induction false} HandlerAfterStep(table: map<Uuid, Message>, chat: Uuid, cursor: Option<MessageCursor>, requested: Option<int>)
    ensures var p := Handle(table, chat, cursor, After, requested);
            var s := Visible(table, chat);
            var pending := Over(s, KeyOf(cursor));
            && (p.next.None? <==> pending == {})
            && (p.next.Some? ==> Asc(pending) == p.items + Asc(Over(s, p.next)))
            && ((p.hasMore <==> |pending| > Limit(requested)) <==> Limit(requested) < MAX_PAGE || |pending| <= MAX_PAGE)
  {
    QueryIsPage(table, chat, cursor, Limit(requested) + 1);
    TilesAfter(Visible(table, chat), KeyOf(cursor), requested);
  }

  function HandleBefore(s: set<Key>, c: Option<Key>, requested: Option<int>): Page {
    Truncate(BeforePage(s, c, Limit(requested) + 1), Limit(requested))
  }

  /**
   Backwards, the handler drops the newest row of a page that has more and continues
   from the newest row it kept, so each page moves back by two messages only.
   */
  lemma {:induction false} HandlerBeforeStep(s: set<Key>, c: Option<Key>, requested: Option<int>)
    requires HandleBefore(s, c, requested).hasMore
    ensures var p := HandleBefore(s, c, requested);
            var d := Desc(Under(s, c));
            && |d| > |p.items| >= 1
            && p.items == Reverse(d[1..|p.items| + 1])
            && p.next == Some(d[1])
            && Desc(Under(s, p.next)) == d[2..]
            && |Under(s, p.next)| == |Under(s, c)| - 2
  {
    var limit := Limit(requested);
    var d := Desc(Under(s, c));
    assert Clamp(limit + 1, 1, MAX_PAGE) == limit + 1;
    assert BeforePage(s, c, limit + 1) == Reverse(d[..limit + 1]);
    ReverseTake(d[..limit + 1], 1);
    assert d[..limit + 1][1..] == d[1..limit + 1];
    PageCut(s, c, 2);
  }

  /** Everything a client is shown when it follows `next_cursor` backwards while `has_more` is set. */
  function HandlerBeforeWalk(s: set<Key>, c: Option<Key>, requested: Option<int>): seq<Key>
    decreases |Under(s, c)|
  {
    var p := HandleBefore(s, c, requested);
    if !p.hasMore then p.items else
      HandlerBeforeStep(s, c, requested);
      p.items + HandlerBeforeWalk(s, p.next, requested)
  }

  lemma {:induction false} HandlerBeforeWithin(s: set<Key>, c: Option<Key>, requested: Option<int>)
    ensures forall k :: k in HandlerBeforeWalk(s, c, requested) ==> k in Under(s, c)
    decreases |Under(s, c)|
  {
    var d := Desc(Under(s, c));
    var p := HandleBefore(s, c, requested);
    PageMembers(s, c, requested);
    if p.hasMore {
      HandlerBeforeStep(s, c, requested);
      HandlerBeforeWithin(s, p.next, requested);
      DescSorted(Under(s, p.next));
      DescSorted(Under(s, c));
      assert forall k :: k in d[2..] ==> k in d;
    }
  }

  lemma {:induction false} PageMembers(s: set<Key>, c: Option<Key>, requested: Option<int>)
    ensures forall k :: k in HandleBefore(s, c, requested).items ==> k in Under(s, c)
  {
    var top := Top(Under(s, c), Clamp(Limit(requested) + 1, 1, MAX_PAGE));
    DescSorted(Under(s, c));
    forall k | k in HandleBefore(s, c, requested).items ensures k in Under(s, c) {
      assert k in Reverse(top);
      ReverseMembers(top, k);
      assert k in Desc(Under(s, c));
    }
  }

  /** The newest message under the cursor is lost as soon as a page has more. */
  lemma {:induction false} NewestNeverShown(s: set<Key>, c: Option<Key>, requested: Option<int>)
    requires HandleBefore(s, c, requested).hasMore
    ensures Under(s, c) != {}
    ensures Desc(Under(s, c))[0] !in HandlerBeforeWalk(s, c, requested)
  {
    HandlerBeforeStep(s, c, requested);
    var d := Desc(Under(s, c));
    var p := HandleBefore(s, c, requested);
    HeadDropped(Under(s, c), |p.items|);
    ReverseMembers(d[1..|p.items| + 1], d[0]);
    DescSorted(Under(s, p.next));
    HandlerBeforeWithin(s, p.next, requested);
  }

  lemma {:induction false} HeadDropped(s: set<Key>, n: nat)
    requires n + 1 <= |s| && |s| >= 2
    ensures var d := Desc(s); d[0] !in d[1..n + 1] && d[0] !in d[2..]
  {
    var d := Desc(s);
    DescSorted(s);
    ElementOfSlice(d, 0, 0);
    assert forall k :: k in d[1..n + 1] ==> k in d[1..];
    assert forall k :: k in d[2..] ==> k in d[1..];
  }

  lemma {:induction false} OldestBeyondFiftyHidden(s: set<Key>, c: Option<Key>, requested: Option<int>)
    requires !HandleBefore(s, c, requested).hasMore && |Under(s, c)| > Limit(requested)
    ensures exists k :: k in Under(s, c) && k !in HandlerBeforeWalk(s, c, requested)
  {
    var d := Desc(Under(s, c));
    var k := d[MAX_PAGE];
    DescSorted(Under(s, c));
    DescMember(Under(s, c), MAX_PAGE);
    assert HandlerBeforeWalk(s, c, requested) == Reverse(d[..MAX_PAGE]);
    ReverseMembers(d[..MAX_PAGE], k);
    ElementOfSlice(d, MAX_PAGE, MAX_PAGE);
  }

  /** A first page that holds all older messages shows them all. */
  lemma {:induction false} OnePageSuffices(s: set<Key>, c: Option<Key>, requested: Option<int>, k: Key)
    requires |Under(s, c)| <= Limit(requested) && k in Under(s, c)
    ensures k in HandlerBeforeWalk(s, c, requested)
  {
    var d := Desc(Under(s, c));
    assert HandleBefore(s, c, requested).items == Reverse(d);
    DescSorted(Under(s, c));
    ReverseMembers(d, k);
  }

  lemma {:induction false} MoreThanOnePageHides(s: set<Key>, c: Option<Key>, requested: Option<int>)
    requires |Under(s, c)| > Limit(requested)
    ensures exists k :: k in Under(s, c) && k !in HandlerBeforeWalk(s, c, requested)
  {
    if HandleBefore(s, c, requested).hasMore {
      NewestNeverShown(s, c, requested);
      DescMember(Under(s, c), 0);
    } else {
      OldestBeyondFiftyHidden(s, c, requested);
    }
  }

  /**
   The backwards walk through the handler shows every older message exactly when they
   all fit on its first page.
   */
  lemma {:induction false} HandlerBeforeCompleteIff(table: map<Uuid, Message>, chat: Uuid, cursor: Option<MessageCursor>, requested: Option<int>)
    ensures var s := Visible(table, chat);
            var older := Selected(table, chat, cursor, Before);
            && Handle(table, chat, cursor, Before, requested) == HandleBefore(s, KeyOf(cursor), requested)
            && ((forall k :: k in older ==> k in HandlerBeforeWalk(s, KeyOf(cursor), requested)) <==> |older| <= Limit(requested))
  {
    QueryIsPage(table, chat, cursor, Limit(requested) + 1);
    var s, c := Visible(table, chat), KeyOf(cursor);
    if |Under(s, c)| <= Limit(requested) {
      forall k | k in Under(s, c) ensures k in HandlerBeforeWalk(s, c, requested) {
        OnePageSuffices(s, c, requested, k);
      }
    } else {
      MoreThanOnePageHides(s, c, requested);
    }
  }
}
