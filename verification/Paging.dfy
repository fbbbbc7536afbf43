/**
 The paging protocol shared by the list endpoints: the repository clamps the page
 size and runs one cursor query, the handler asks for one row more than the client
 wants, truncates, and builds the next cursor from the last row it kept.
 */
module Paging {
  import opened Prelude
  import opened Keyset

  const MAX_PAGE := 50

  /** A page as the client sees it, reduced to the keys of its rows. */
  datatype Page = Page(items: seq<Key>, next: Option<Key>, hasMore: bool)

  /** `LIMIT n` on a descending listing. */
  function Top(s: set<Key>, n: nat): seq<Key> {
    if n <= |s| then Desc(s)[..n] else Desc(s)
  }

  /** The repository query: `LIMIT limit.clamp(1, 50)` below the cursor. */
  function Fetch(s: set<Key>, c: Option<Key>, limit: int): seq<Key> {
    Top(Under(s, c), Clamp(limit, 1, MAX_PAGE))
  }

  /** `items.truncate(limit)` if there are more, and the next cursor from the last item kept. */
  function Truncate(rows: seq<Key>, limit: nat): Page {
    var hasMore := |rows| > limit;
    var items := if hasMore then rows[..limit] else rows;
    Page(items, if items == [] then None else Some(items[|items| - 1]), hasMore)
  }

  method TruncatePage(rows: seq<Key>, limit: nat) returns (p: Page)
    ensures p == Truncate(rows, limit)
  {
    var items := rows;
    var hasMore := |items| > limit;
    if hasMore {
      items := items[..limit];
    }
    p := Page(items, if items == [] then None else Some(items[|items| - 1]), hasMore);
  }

  /** The handler: clamp, fetch one extra row, truncate, take the last row as cursor. */
  function Respond(s: set<Key>, c: Option<Key>, limit: int): Page {
    var wanted := Clamp(limit, 1, MAX_PAGE);
    Truncate(Fetch(s, c, wanted + 1), wanted)
  }

  /** Truncating the probed rows gives the first rows, and the probe flag below the maximum size. */
  lemma {:induction false} TruncatedTop(pending: set<Key>, wanted: nat)
    requires 1 <= wanted <= MAX_PAGE
    ensures var p := Truncate(Top(pending, Min(wanted + 1, MAX_PAGE)), wanted);
            && p.items == Top(pending, wanted)
            && (p.hasMore <==> |pending| > wanted && wanted < MAX_PAGE)
            && (p.next.None? <==> pending == {})
            && (p.next.Some? ==> p.items != [] && p.next.value == p.items[|p.items| - 1])
  {
    var d := Desc(pending);
    if |pending| > wanted && wanted < MAX_PAGE {
      assert d[..wanted + 1][..wanted] == d[..wanted];
    }
  }

  /** The page holds the first rows under the cursor; `has_more` cannot be set at the maximum size. */
  lemma {:induction false} RespondMeaning(s: set<Key>, c: Option<Key>, limit: int)
    ensures var wanted := Clamp(limit, 1, MAX_PAGE);
            var p := Respond(s, c, limit);
            var pending := Under(s, c);
            && p.items == Top(pending, wanted)
            && (p.hasMore <==> |pending| > wanted && wanted < MAX_PAGE)
            && (p.next.None? <==> pending == {})
            && (p.next.Some? ==> p.items != [] && p.next.value == p.items[|p.items| - 1])
  {
    var wanted := Clamp(limit, 1, MAX_PAGE);
    assert Clamp(wanted + 1, 1, MAX_PAGE) == Min(wanted + 1, MAX_PAGE);
    TruncatedTop(Under(s, c), wanted);
  }

  /** `has_more` says whether rows remain, except when a full page of 50 leaves rows behind. */
  lemma {:induction false} HasMoreExact(s: set<Key>, c: Option<Key>, limit: int)
    ensures var wanted := Clamp(limit, 1, MAX_PAGE);
            (Respond(s, c, limit).hasMore <==> |Under(s, c)| > wanted)
            <==> wanted < MAX_PAGE || |Under(s, c)| <= MAX_PAGE
  {
    RespondMeaning(s, c, limit);
  }

  lemma {:induction false} BelowUnder(s: set<Key>, c: Option<Key>, k: Key)
    requires k in Under(s, c)
    ensures Below(Under(s, c), k) == Under(s, Some(k))
  {
  }

  /** Cutting a table at its n-th listed row. */
  lemma {:induction false} CutSize(pending: set<Key>, n: nat)
    requires 0 < n <= |pending|
    ensures var last := Desc(pending)[n - 1];
            last in pending && Desc(Below(pending, last)) == Desc(pending)[n..] && |Below(pending, last)| == |pending| - n
  {
    CutBelow(pending, n - 1);
    DescMember(pending, n - 1);
    assert |Desc(Below(pending, Desc(pending)[n - 1]))| == |pending| - n;
  }

  /** Cutting after the first n rows under a cursor. */
  lemma {:induction false} PageCut(s: set<Key>, c: Option<Key>, n: nat)
    requires 0 < n <= |Under(s, c)|
    ensures var d := Desc(Under(s, c));
            && Desc(Under(s, Some(d[n - 1]))) == d[n..]
            && d == d[..n] + d[n..]
            && |Under(s, Some(d[n - 1]))| == |Under(s, c)| - n
  {
    CutSize(Under(s, c), n);
    BelowUnder(s, c, Desc(Under(s, c))[n - 1]);
  }

  /** Continuing from a page's cursor ranges over the rows after that page. */
  lemma {:induction false} NextDrops(s: set<Key>, c: Option<Key>, limit: int)
    requires Under(s, c) != {}
    ensures var p := Respond(s, c, limit);
            && p.next.Some?
            && Desc(Under(s, c)) == p.items + Desc(Under(s, p.next))
            && |Under(s, p.next)| < |Under(s, c)|
  {
    RespondMeaning(s, c, limit);
    var p := Respond(s, c, limit);
    PageCut(s, c, |p.items|);
  }

  /** A client that follows `next_cursor` for as long as `has_more` is set. */
  function Follow(s: set<Key>, c: Option<Key>, limit: int): seq<seq<Key>>
    decreases |Under(s, c)|
  {
    var p := Respond(s, c, limit);
    if !p.hasMore then [p.items] else
      RespondMeaning(s, c, limit);
      NextDrops(s, c, limit);
      [p.items] + Follow(s, p.next, limit)
  }

  /** A client that follows `next_cursor` until a page comes back empty. */
  function Exhaust(s: set<Key>, c: Option<Key>, limit: int): seq<seq<Key>>
    decreases |Under(s, c)|
  {
    var p := Respond(s, c, limit);
    if p.items == [] then [] else
      RespondMeaning(s, c, limit);
      NextDrops(s, c, limit);
      [p.items] + Exhaust(s, p.next, limit)
  }

  /** A page holds as many rows as asked for, within 1 to 50, as long as there are so many. */
  lemma {:induction false} PageSizes(s: set<Key>, c: Option<Key>, limit: int)
    ensures var size := if limit < 1 then 1 else if limit > 50 then 50 else limit;
            |Respond(s, c, limit).items| == if |Under(s, c)| < size then |Under(s, c)| else size
  {
    RespondMeaning(s, c, limit);
  }

  /** Walking to the empty page lists every row under the cursor once, in order, at every limit. */
  lemma {:induction false} ExhaustListsAll(s: set<Key>, c: Option<Key>, limit: int)
    ensures Flatten(Exhaust(s, c, limit)) == Desc(Under(s, c))
    decreases |Under(s, c)|
  {
    RespondMeaning(s, c, limit);
    var p := Respond(s, c, limit);
    if p.items != [] {
      NextDrops(s, c, limit);
      ExhaustListsAll(s, p.next, limit);
    }
  }

  /** What following `has_more` returns: everything, or just the first 50 rows at the maximum size. */
  lemma {:induction false} FollowLists(s: set<Key>, c: Option<Key>, limit: int)
    ensures Flatten(Follow(s, c, limit)) ==
            if Clamp(limit, 1, MAX_PAGE) < MAX_PAGE then Desc(Under(s, c)) else Top(Under(s, c), MAX_PAGE)
    decreases |Under(s, c)|
  {
    RespondMeaning(s, c, limit);
    var p := Respond(s, c, limit);
    if p.hasMore {
      NextDrops(s, c, limit);
      FollowLists(s, p.next, limit);
    } else {
      assert Flatten([p.items]) == p.items;
    }
  }

  /** Following `has_more` lists every row exactly when the page size is below 50 or one page suffices. */
  lemma {:induction false} FollowCompleteIff(s: set<Key>, c: Option<Key>, limit: int)
    ensures Flatten(Follow(s, c, limit)) == Desc(Under(s, c))
            <==> Clamp(limit, 1, MAX_PAGE) < MAX_PAGE || |Under(s, c)| <= MAX_PAGE
  {
    FollowLists(s, c, limit);
  }
}
