/**
 The notification list while the table changes under it: the notifications table as
 the repository updates it, and a client walking it page by page.
 */
module Notifications {
  import opened Prelude
  import opened Keyset
  import opened Paging

  datatype Notification = Notification(userId: Uuid, kind: int, isRead: bool, readAt: Option<int>, createdAt: int)

  /**
   The notifications table, with the ids it ever held (random UUIDs do not repeat) and
   the latest creation time it ever held.
   */
  datatype Table = Table(rows: map<Uuid, Notification>, used: set<Uuid>, latest: int)

  const EMPTY := Table(map[], {}, 0)

  ghost predicate Valid(t: Table) {
    && t.rows.Keys <= t.used
    && forall id :: id in t.rows ==> t.rows[id].createdAt <= t.latest
  }

  /** One repository statement. */
  datatype Event =
    | Create(id: Uuid, userId: Uuid, kind: int, now: int)
    | MarkRead(userId: Uuid, id: Uuid, now: int)
    | MarkAllRead(userId: Uuid, now: int)
    | DeleteRead(userId: Uuid)

  function Read(n: Notification, now: int): Notification {
    n.(isRead := true, readAt := Some(now))
  }

  function Step(t: Table, e: Event): Table {
    match e
    case Create(id, user, kind, now) =>
      if id in t.used then t
      else Table(t.rows[id := Notification(user, kind, false, None, now)], t.used + {id}, Max(t.latest, now))
    case MarkRead(user, id, now) =>
      if id in t.rows && t.rows[id].userId == user && !t.rows[id].isRead
      then t.(rows := t.rows[id := Read(t.rows[id], now)])
      else t
    case MarkAllRead(user, now) =>
      t.(rows := map id | id in t.rows ::
           if t.rows[id].userId == user && !t.rows[id].isRead then Read(t.rows[id], now) else t.rows[id])
    case DeleteRead(user) =>
      t.(rows := map id | id in t.rows && !(t.rows[id].userId == user && t.rows[id].isRead) :: t.rows[id])
  }

  function Run(t: Table, es: seq<Event>): Table {
    if es == [] then t else Step(Run(t, es[..|es| - 1]), es[|es| - 1])
  }

  function Keys(t: Table, user: Uuid): set<Key> {
    set id | id in t.rows && t.rows[id].userId == user :: Key(0, t.rows[id].createdAt, id)
  }

  datatype NotificationError = NotFound

  function RowsOf(rows: map<Uuid, Notification>, keys: seq<Key>): seq<Notification>
    requires forall i :: 0 <= i < |keys| ==> keys[i].id in rows
  {
    seq(|keys|, i requires 0 <= i < |keys| => rows[keys[i].id])
  }

  /** These are the user's rows behind the keys of a page. */
  ghost predicate AreRows(rows: map<Uuid, Notification>, user: Uuid, keys: seq<Key>, items: seq<Notification>) {
    && |items| == |keys|
    && forall i :: 0 <= i < |keys| ==>
         && keys[i].id in rows && rows[keys[i].id] == items[i]
         && items[i].userId == user && keys[i] == Key(0, items[i].createdAt, keys[i].id)
  }

  lemma {:induction false} PageInTable(t: Table, user: Uuid, c: Option<Key>, limit: int)
    ensures var keys := Respond(Keys(t, user), c, limit).items;
            (forall i :: 0 <= i < |keys| ==> keys[i].id in t.rows) && AreRows(t.rows, user, keys, RowsOf(t.rows, keys))
  {
    RespondMeaning(Keys(t, user), c, limit);
    var keys := Respond(Keys(t, user), c, limit).items;
    forall i | 0 <= i < |keys| ensures keys[i] in Keys(t, user) {
      DescMember(Under(Keys(t, user), c), i);
    }
  }

  /** The repository over its table. */
  class NotificationStore {
    var rows: map<Uuid, Notification>
    ghost var used: set<Uuid>
    ghost var latest: int

    ghost function State(): Table
      reads this
    {
      Table(rows, used, latest)
    }

    constructor ()
      ensures State() == EMPTY && Valid(State())
    {
      rows, used, latest := map[], {}, 0;
    }

    method CreateNotification(id: Uuid, user: Uuid, kind: int, now: int)
      requires id !in used
      modifies this
      ensures State() == Step(old(State()), Create(id, user, kind, now))
    {
      rows := rows[id := Notification(user, kind, false, None, now)];
      used := used + {id};
      latest := Max(latest, now);
    }

    method MarkNotificationRead(user: Uuid, id: Uuid, now: int) returns (r: Result<(), NotificationError>)
      modifies this
      ensures State() == Step(old(State()), MarkRead(user, id, now))
      ensures r.Err? <==> !(id in old(rows) && old(rows)[id].userId == user && !old(rows)[id].isRead)
    {
      if id in rows && rows[id].userId == user && !rows[id].isRead {
        rows := rows[id := Read(rows[id], now)];
        return Ok(());
      }
      return Err(NotFound);
    }

    method MarkAllNotificationsRead(user: Uuid, now: int) returns (count: nat)
      modifies this
      ensures State() == Step(old(State()), MarkAllRead(user, now))
      ensures forall id :: id in rows && rows[id].userId == user ==> rows[id].isRead
      ensures count == |set id | id in old(rows) && old(rows)[id].userId == user && !old(rows)[id].isRead|
    {
      var unread := set id | id in rows && rows[id].userId == user && !rows[id].isRead;
      count := |unread|;
      rows := map id | id in rows :: if id in unread then Read(rows[id], now) else rows[id];
    }

    method DeleteReadNotifications(user: Uuid) returns (count: nat)
      modifies this
      ensures State() == Step(old(State()), DeleteRead(user))
      ensures count == |old(rows)| - |rows|
    {
      var gone := set id | id in rows && rows[id].userId == user && rows[id].isRead;
      count := |gone|;
      assert |rows| == |rows.Keys|;
      assert (rows - gone).Keys == rows.Keys - gone;
      rows := rows - gone;
      assert |rows| == |rows.Keys|;
    }

    /** The repository query and the truncation, by key. */
    method ListKeys(user: Uuid, cursor: Option<Key>, limit: int) returns (page: Page)
      ensures page == Respond(Keys(State(), user), cursor, limit)
    {
      var wanted := Clamp(limit, 1, MAX_PAGE);
      var keys := set id | id in rows && rows[id].userId == user :: Key(0, rows[id].createdAt, id);
      assert keys == Keys(State(), user);
      var fetched := Fetch(keys, cursor, wanted + 1);
      page := TruncatePage(fetched, wanted);
    }

    /** The list endpoint: the protocol's page of keys, and the rows with those keys. */
    method ListNotifications(user: Uuid, cursor: Option<Key>, requested: Option<int>)
      returns (page: Page, items: seq<Notification>)
      ensures page == Respond(Keys(State(), user), cursor, if requested.Some? then requested.value else 20)
      ensures AreRows(rows, user, page.items, items)
    {
      var limit := if requested.Some? then requested.value else 20;
      page := ListKeys(user, cursor, limit);
      PageInTable(State(), user, cursor, limit);
      items := RowsOf(rows, page.items);
    }
  }

  // ---- What survives changes to the table -----------------------------------------

  /** Rows never change owner or creation time, and deleted ids never come back. */
  ghost predicate Stable(a: Table, b: Table) {
    && Valid(a) && Valid(b)
    && a.used <= b.used
    && a.latest <= b.latest
    && forall id :: id in a.used && id in b.rows ==>
         id in a.rows && a.rows[id].userId == b.rows[id].userId && a.rows[id].createdAt == b.rows[id].createdAt
  }

  lemma {:induction false} RunStable(t: Table, es: seq<Event>)
    requires Valid(t)
    ensures Stable(t, Run(t, es))
  {
    if es != [] {
      RunStable(t, es[..|es| - 1]);
    }
  }

  /** The event reads this unread row: a mark of the row or of all rows, by the row's own user. */
  predicate Reads(e: Event, id: Uuid, n: Notification) {
    match e
    case MarkRead(user, i, _) => user == n.userId && i == id
    case MarkAllRead(user, _) => user == n.userId
    case _ => false
  }

  /** What one event does to one row: it goes only when its user clears read rows, and changes only when its user first reads it. */
  lemma {:induction false} RowStep(t: Table, e: Event, id: Uuid)
    requires Valid(t) && id in t.rows
    ensures id in Step(t, e).rows <==> !(e == DeleteRead(t.rows[id].userId) && t.rows[id].isRead)
    ensures var n, u := t.rows[id], Step(t, e);
            id in u.rows ==>
              u.rows[id] ==
              if !n.isRead && Reads(e, id, n)
              then Notification(n.userId, n.kind, true, Some(e.now), n.createdAt) else n
  {
  }

  /** A row appears only by its creation, unread. */
  lemma {:induction false} NewRow(t: Table, e: Event, id: Uuid)
    requires id !in t.rows
    ensures id in Step(t, e).rows <==> e.Create? && e.id == id && id !in t.used
    ensures id in Step(t, e).rows ==> Step(t, e).rows[id] == Notification(e.userId, e.kind, false, None, e.now)
  {
  }

  ghost predicate ReadAt(es: seq<Event>, n: nat, id: Uuid)
    requires n < |es|
  {
    var t := Run(EMPTY, es[..n]);
    id in t.rows && !t.rows[id].isRead && Reads(es[n], id, t.rows[id])
  }

  /** The event that explains a row's creation, and the one that read it, if it is read. */
  ghost predicate Explained(es: seq<Event>, id: Uuid, row: Notification) {
    && Create(id, row.userId, row.kind, row.createdAt) in es
    && (row.isRead <==> exists n: nat :: n < |es| && ReadAt(es, n, id))
    && (row.isRead ==> row.readAt.Some? && exists n: nat :: n < |es| && ReadAt(es, n, id) && es[n].now == row.readAt.value)
    && (!row.isRead ==> row.readAt == None)
  }

  lemma {:induction false} ReadAtSnoc(es: seq<Event>, e: Event, id: Uuid)
    ensures forall n: nat :: n < |es| ==> (ReadAt(es + [e], n, id) <==> ReadAt(es, n, id))
    ensures ReadAt(es + [e], |es|, id) <==>
            var t := Run(EMPTY, es); id in t.rows && !t.rows[id].isRead && Reads(e, id, t.rows[id])
  {
    var all := es + [e];
    forall n: nat | n < |es| ensures ReadAt(all, n, id) <==> ReadAt(es, n, id) {
      assert all[..n] == es[..n];
    }
    assert all[..|es|] == es;
  }

  lemma {:induction false} UsedGrows(es: seq<Event>, n: nat)
    requires n <= |es|
    ensures Run(EMPTY, es[..n]).used <= Run(EMPTY, es).used && Valid(Run(EMPTY, es[..n]))
    decreases |es|
  {
    RunStable(EMPTY, es[..n]);
    if n == |es| {
      assert es[..n] == es;
    } else {
      assert es[..|es| - 1][..n] == es[..n];
      UsedGrows(es[..|es| - 1], n);
    }
  }

  lemma {:induction false} NeverReadBefore(es: seq<Event>, id: Uuid)
    requires id !in Run(EMPTY, es).used
    ensures forall n: nat :: n < |es| ==> !ReadAt(es, n, id)
  {
    forall n: nat | n < |es| ensures !ReadAt(es, n, id) {
      UsedGrows(es, n);
    }
  }

  lemma {:induction false} ExplainedStep(es: seq<Event>, e: Event, id: Uuid)
    requires id in Run(EMPTY, es).rows ==> Explained(es, id, Run(EMPTY, es).rows[id])
    requires id in Run(EMPTY, es + [e]).rows
    ensures Explained(es + [e], id, Run(EMPTY, es + [e]).rows[id])
  {
    var t := Run(EMPTY, es);
    var all := es + [e];
    assert all[..|es|] == es;
    RunStable(EMPTY, es);
    ReadAtSnoc(es, e, id);
    if id in t.rows {
      var row := t.rows[id];
      RowStep(t, e, id);
      if row.isRead {
        var n: nat :| n < |es| && ReadAt(es, n, id) && es[n].now == row.readAt.value;
        assert ReadAt(all, n, id) && all[n] == es[n];
      } else if Reads(e, id, row) {
        assert ReadAt(all, |es|, id) && all[|es|] == e;
      }
      assert Create(id, row.userId, row.kind, row.createdAt) in all;
    } else {
      NewRow(t, e, id);
      NeverReadBefore(es, id);
      assert e in all;
    }
  }

  /**
   Over all runs a stored notification is as its creation made it, and is read exactly when
   an event of its own user read it, at the time of that event.
   */
  lemma {:induction false} EventsExplainRows(es: seq<Event>, id: Uuid)
    requires id in Run(EMPTY, es).rows
    ensures Explained(es, id, Run(EMPTY, es).rows[id])
  {
    var before, e := es[..|es| - 1], es[|es| - 1];
    assert before + [e] == es;
    if id in Run(EMPTY, before).rows {
      EventsExplainRows(before, id);
    }
    ExplainedStep(before, e, id);
  }

  ghost predicate Evolves(a: Table, b: Table) {
    exists es: seq<Event> :: Run(a, es) == b
  }

  // ---- A client's walk ---------------------------------------------------------------

  /** One request of the client: the table it met and the page it got. */
  datatype Visit = Visit(table: Table, page: Page)

  ghost function CursorAt(w: seq<Visit>, i: nat): Option<Key>
    requires i < |w|
  {
    if i == 0 then None else w[i - 1].page.next
  }

  /** The i-th page answers a request with the cursor of the page before. */
  ghost predicate PageAt(w: seq<Visit>, user: Uuid, limit: int, i: nat)
    requires i < |w|
  {
    w[i].page == Respond(Keys(w[i].table, user), CursorAt(w, i), limit)
  }

  /** Each request continues from the previous page; anything may happen to the table in between. */
  ghost predicate IsWalk(w: seq<Visit>, user: Uuid, limit: int) {
    && w != []
    && Valid(w[0].table)
    && (forall i :: 0 <= i < |w| ==> PageAt(w, user, limit, i))
    && (forall i, j :: 0 <= i && j == i + 1 && j < |w| ==> Continues(w[i], w[j]))
  }

  ghost predicate Continues(a: Visit, b: Visit) {
    a.page.next.Some? && Evolves(a.table, b.table)
  }

  /** The client stops when `has_more` is false (page sizes below 50) or on an empty page. */
  ghost predicate Finished(w: seq<Visit>, limit: int) {
    && w != []
    && var last := w[|w| - 1].page;
       || last.items == []
       || (Clamp(limit, 1, MAX_PAGE) < MAX_PAGE && !last.hasMore)
  }

  lemma {:induction false} TablesStable(w: seq<Visit>, user: Uuid, limit: int, i: nat, j: nat)
    requires IsWalk(w, user, limit) && i <= j < |w|
    ensures Stable(w[i].table, w[j].table)
    decreases j
  {
    if j > 0 {
      TablesStable(w, user, limit, if i < j then i else j - 1, j - 1);
      TablesStable(w, user, limit, j - 1, j - 1);
      assert Continues(w[j - 1], w[j]);
      var es :| Run(w[j - 1].table, es) == w[j].table;
      RunStable(w[j - 1].table, es);
    }
  }

  /** A row on a page lies under the cursor, and not below the page's own next cursor. */
  lemma {:induction false} ItemUnder(s: set<Key>, c: Option<Key>, limit: int, k: Key)
    requires k in Respond(s, c, limit).items
    ensures var p := Respond(s, c, limit);
            k in Under(s, c) && p.next.Some? && p.next.value in p.items && (k == p.next.value || Less(p.next.value, k))
  {
    RespondMeaning(s, c, limit);
    var p := Respond(s, c, limit);
    var d := Desc(Under(s, c));
    var n := |p.items|;
    assert p.items == d[..n];
    var i :| 0 <= i < n && d[i] == k;
    DescSorted(Under(s, c));
    DescMember(Under(s, c), i);
    PositionOrder(d, i, n - 1);
  }

  /** A row under the cursor that is not on the page sorts below the next cursor; a final page holds them all. */
  lemma {:induction false} LeftForLater(s: set<Key>, c: Option<Key>, limit: int, k: Key)
    requires k in Under(s, c) && k !in Respond(s, c, limit).items
    ensures var p := Respond(s, c, limit);
            && p.next.Some?
            && Less(k, p.next.value)
            && p.items != []
            && (p.hasMore || Clamp(limit, 1, MAX_PAGE) == MAX_PAGE)
  {
    RespondMeaning(s, c, limit);
    var p := Respond(s, c, limit);
    var d := Desc(Under(s, c));
    var n := |p.items|;
    DescSorted(Under(s, c));
    assert k in d;
    assert p.items == d[..n];
    assert forall m :: 0 <= m < n ==> d[m] == p.items[m];
    var i :| 0 <= i < |d| && d[i] == k;
    assert n <= i;
    PositionOrder(d, n - 1, i);
  }

  lemma LessTransitive(x: Key, y: Key, z: Key)
    requires Less(x, y) && (y == z || Less(y, z))
    ensures Less(x, z)
  {
  }

  /** Everything on a later page sorts strictly below every earlier cursor. */
  lemma {:induction false} LaterPagesBelow(w: seq<Visit>, user: Uuid, limit: int, i: nat, j: nat, y: Key)
    requires IsWalk(w, user, limit) && i < j < |w| && y in w[j].page.items
    ensures w[i].page.next.Some? && Less(y, w[i].page.next.value)
    decreases j
  {
    assert PageAt(w, user, limit, j) && PageAt(w, user, limit, j - 1);
    assert Continues(w[i], w[i + 1]) && Continues(w[j - 1], w[j]);
    ItemUnder(Keys(w[j].table, user), CursorAt(w, j), limit, y);
    var c := w[j - 1].page.next.value;
    assert Less(y, c);
    if i < j - 1 {
      CursorOnPage(Keys(w[j - 1].table, user), CursorAt(w, j - 1), limit);
      LaterPagesBelow(w, user, limit, i, j - 1, c);
      LessTransitive(y, c, w[i].page.next.value);
    }
  }

  lemma {:induction false} CursorOnPage(s: set<Key>, c: Option<Key>, limit: int)
    requires Respond(s, c, limit).next.Some?
    ensures Respond(s, c, limit).next.value in Respond(s, c, limit).items
  {
    RespondMeaning(s, c, limit);
  }

  /**
   No row is returned twice, whatever is inserted, read or deleted between pages:
   later pages hold strictly smaller keys and different ids.
   */
  lemma {:induction false} NoRowTwice(w: seq<Visit>, user: Uuid, limit: int, i: nat, j: nat, x: Key, y: Key)
    requires IsWalk(w, user, limit) && i < j < |w|
    requires x in w[i].page.items && y in w[j].page.items
    ensures Less(y, x) && x.id != y.id
  {
    LaterPagesBelow(w, user, limit, i, j, y);
    assert PageAt(w, user, limit, i) && PageAt(w, user, limit, j);
    ItemUnder(Keys(w[i].table, user), CursorAt(w, i), limit, x);
    ItemUnder(Keys(w[j].table, user), CursorAt(w, j), limit, y);
    LessTransitive(y, w[i].page.next.value, x);
    TablesStable(w, user, limit, i, j);
    assert x in Keys(w[i].table, user) && y in Keys(w[j].table, user);
  }

  /** The rows of one page are pairwise different too. */
  lemma {:induction false} PageHasNoRepeats(w: seq<Visit>, user: Uuid, limit: int, i: nat, m: nat, n: nat)
    requires IsWalk(w, user, limit) && i < |w| && m < n < |w[i].page.items|
    ensures Less(w[i].page.items[n], w[i].page.items[m])
    ensures w[i].page.items[n].id != w[i].page.items[m].id
  {
    assert PageAt(w, user, limit, i);
    var s, c := Keys(w[i].table, user), CursorAt(w, i);
    RespondMeaning(s, c, limit);
    DescSorted(Under(s, c));
    var d := Desc(Under(s, c));
    assert w[i].page.items == d[..|w[i].page.items|];
    PositionOrder(d, m, n);
    DescMember(Under(s, c), m);
    DescMember(Under(s, c), n);
  }

  /** The row is in the table, unchanged, at every request of the walk. */
  ghost predicate PresentThroughout(w: seq<Visit>, user: Uuid, k: Key) {
    forall i :: 0 <= i < |w| ==> k in Keys(w[i].table, user)
  }

  ghost predicate Listed(w: seq<Visit>, n: nat, k: Key)
    requires n <= |w|
  {
    exists i :: 0 <= i < n && k in w[i].page.items
  }

  lemma {:induction false} PendingOrListed(w: seq<Visit>, user: Uuid, limit: int, k: Key, n: nat)
    requires IsWalk(w, user, limit) && n < |w| && PresentThroughout(w, user, k)
    ensures Listed(w, n, k) || k in Under(Keys(w[n].table, user), CursorAt(w, n))
  {
    assert k in Keys(w[n].table, user);
    if n > 0 {
      PendingOrListed(w, user, limit, k, n - 1);
      if Listed(w, n - 1, k) || k in w[n - 1].page.items {
        assert Listed(w, n, k);
      } else {
        assert PageAt(w, user, limit, n - 1);
        LeftForLater(Keys(w[n - 1].table, user), CursorAt(w, n - 1), limit, k);
      }
    }
  }

  /** A finished walk returns every row that was in the table throughout. */
  lemma {:induction false} PersistentRowListed(w: seq<Visit>, user: Uuid, limit: int, k: Key)
    requires IsWalk(w, user, limit) && Finished(w, limit) && PresentThroughout(w, user, k)
    ensures Listed(w, |w|, k)
  {
    var n := |w| - 1;
    PendingOrListed(w, user, limit, k, n);
    if !Listed(w, n, k) && k !in w[n].page.items {
      assert PageAt(w, user, limit, n);
      LeftForLater(Keys(w[n].table, user), CursorAt(w, n), limit, k);
    }
  }

  /** A row met at the first request stays the same row for as long as its id is in the table. */
  lemma {:induction false} PresentById(w: seq<Visit>, user: Uuid, limit: int, k: Key)
    requires IsWalk(w, user, limit) && k in Keys(w[0].table, user)
    ensures PresentThroughout(w, user, k) <==> forall i :: 0 <= i < |w| ==> k.id in w[i].table.rows
  {
    forall i | 0 <= i < |w| ensures k.id in w[i].table.rows <==> k in Keys(w[i].table, user) {
      TablesStable(w, user, limit, 0, i);
    }
  }

  // ---- Termination ---------------------------------------------------------------------

  /** Every creation in the run is newer than every row the table ever held. */
  ghost predicate NewerOnly(t: Table, es: seq<Event>) {
    forall i :: 0 <= i < |es| && es[i].Create? ==> Run(t, es[..i]).latest < es[i].now
  }

  lemma {:induction false} NothingEntersBelow(t: Table, es: seq<Event>, user: Uuid, c: Key)
    requires Valid(t) && NewerOnly(t, es)
    requires c.major == 0 && c.time <= t.latest
    ensures Below(Keys(Run(t, es), user), c) <= Below(Keys(t, user), c)
  {
    if es != [] {
      var n := |es| - 1;
      var front := es[..n];
      assert forall i :: 0 <= i < n ==> front[..i] == es[..i];
      NothingEntersBelow(t, front, user, c);
      RunStable(t, front);
      OneStepEntersNothing(Run(t, front), es[n], user, c);
    }
  }

  lemma {:induction false} OneStepEntersNothing(t: Table, e: Event, user: Uuid, c: Key)
    requires Valid(t) && (e.Create? ==> t.latest < e.now)
    requires c.major == 0 && c.time <= t.latest
    ensures Below(Keys(Step(t, e), user), c) <= Below(Keys(t, user), c)
  {
    forall k | k in Below(Keys(Step(t, e), user), c) ensures k in Keys(t, user) {
      var u := Step(t, e);
      assert k.id in u.rows && k == Key(0, u.rows[k.id].createdAt, k.id);
      assert k.id in t.rows;
    }
  }

  /** Rows still to come at the i-th request. */
  ghost function Remaining(w: seq<Visit>, user: Uuid, i: nat): nat
    requires i < |w|
  {
    |Under(Keys(w[i].table, user), CursorAt(w, i))|
  }

  ghost predicate EvolvesNewer(a: Table, b: Table) {
    exists es: seq<Event> :: Run(a, es) == b && NewerOnly(a, es)
  }

  ghost predicate NewerWalk(w: seq<Visit>) {
    forall i, j :: 0 <= i && j == i + 1 && j < |w| ==> EvolvesNewer(w[i].table, w[j].table)
  }

  /** If inserts are newer than all earlier rows, the rows below the cursor shrink with every page. */
  lemma {:induction false} RemainingShrinks(w: seq<Visit>, user: Uuid, limit: int, i: nat)
    requires IsWalk(w, user, limit) && NewerWalk(w) && i + 1 < |w|
    ensures Remaining(w, user, i + 1) <= Remaining(w, user, i) - |w[i].page.items|
    ensures w[i].page.items != []
  {
    var a, b := w[i].table, w[i + 1].table;
    assert Continues(w[i], w[i + 1]) && PageAt(w, user, limit, i);
    TablesStable(w, user, limit, i, i);
    var c := w[i].page.next.value;
    PageLeaves(Keys(a, user), CursorAt(w, i), limit);
    assert EvolvesNewer(a, b);
    var es :| Run(a, es) == b && NewerOnly(a, es);
    NothingEntersBelow(a, es, user, c);
    SubsetSize(Below(Keys(b, user), c), Below(Keys(a, user), c));
  }

  lemma {:induction false} PageLeaves(s: set<Key>, c: Option<Key>, limit: int)
    requires Respond(s, c, limit).next.Some?
    ensures var p := Respond(s, c, limit);
            && p.items != []
            && p.next.value in s
            && |Below(s, p.next.value)| == |Under(s, c)| - |p.items|
  {
    RespondMeaning(s, c, limit);
    var p := Respond(s, c, limit);
    CursorOnPage(s, c, limit);
    ItemUnder(s, c, limit, p.next.value);
    PageCut(s, c, |p.items|);
  }

  /** Hence such a walk makes at most one request more than there were rows at its start. */
  lemma {:induction false} WalkTerminates(w: seq<Visit>, user: Uuid, limit: int)
    requires IsWalk(w, user, limit) && NewerWalk(w)
    ensures |w| <= |Keys(w[0].table, user)| + 1
  {
    var i := 0;
    while i + 1 < |w|
      invariant 0 <= i < |w|
      invariant Remaining(w, user, i) + i <= |Keys(w[0].table, user)|
    {
      RemainingShrinks(w, user, limit, i);
      i := i + 1;
    }
  }

  lemma {:induction false} NothingHappens(t: Table)
    ensures Evolves(t, t) && EvolvesNewer(t, t)
  {
    assert Run(t, []) == t && NewerOnly(t, []);
  }

  lemma {:induction false} PageStays(w: seq<Visit>, user: Uuid, limit: int, v: Visit, i: nat)
    requires i < |w| && PageAt(w, user, limit, i)
    ensures PageAt(w + [v], user, limit, i)
  {
    assert CursorAt(w + [v], i) == CursorAt(w, i);
  }

  lemma {:induction false} PagesStay(w: seq<Visit>, user: Uuid, limit: int, v: Visit)
    requires forall i :: 0 <= i < |w| ==> PageAt(w, user, limit, i)
    ensures forall i :: 0 <= i < |w| ==> PageAt(w + [v], user, limit, i)
  {
    forall i | 0 <= i < |w| ensures PageAt(w + [v], user, limit, i) {
      PageStays(w, user, limit, v, i);
    }
  }

  lemma {:induction false} NewPageAt(w: seq<Visit>, user: Uuid, limit: int, v: Visit)
    requires w != [] && v.page == Respond(Keys(v.table, user), w[|w| - 1].page.next, limit)
    ensures PageAt(w + [v], user, limit, |w|)
  {
    assert CursorAt(w + [v], |w|) == w[|w| - 1].page.next;
  }

  lemma {:induction false} ContinuesStay(w: seq<Visit>, v: Visit)
    requires w != [] && Continues(w[|w| - 1], v)
    requires forall i, j :: 0 <= i && j == i + 1 && j < |w| ==> Continues(w[i], w[j])
    ensures var x := w + [v];
            forall i, j :: 0 <= i && j == i + 1 && j < |x| ==> Continues(x[i], x[j])
  {
    var x := w + [v];
    forall i, j | 0 <= i && j == i + 1 && j < |x| ensures Continues(x[i], x[j]) {
      if j < |w| {
        assert Continues(w[i], w[j]);
      }
    }
  }

  lemma {:induction false} ExtendWalk(w: seq<Visit>, user: Uuid, limit: int, v: Visit)
    requires IsWalk(w, user, limit) && Continues(w[|w| - 1], v)
    requires v.page == Respond(Keys(v.table, user), w[|w| - 1].page.next, limit)
    ensures IsWalk(w + [v], user, limit)
  {
    NewPageAt(w, user, limit, v);
    PagesStay(w, user, limit, v);
    ContinuesStay(w, v);
  }

  lemma {:induction false} OneMoreVisit(w: seq<Visit>, t: Table, user: Uuid, limit: int) returns (v: Visit)
    requires IsWalk(w, user, limit) && !Finished(w, limit) && w[|w| - 1].table == t
    ensures v.table == t && IsWalk(w + [v], user, limit) && EvolvesNewer(w[|w| - 1].table, t)
    ensures |Under(Keys(t, user), CursorAt(w + [v], |w|))| < |Under(Keys(t, user), CursorAt(w, |w| - 1))|
  {
    assert PageAt(w, user, limit, |w| - 1);
    var last := w[|w| - 1].page;
    RespondMeaning(Keys(t, user), CursorAt(w, |w| - 1), limit);
    NextDrops(Keys(t, user), CursorAt(w, |w| - 1), limit);
    v := Visit(t, Respond(Keys(t, user), last.next, limit));
    NothingHappens(t);
    ExtendWalk(w, user, limit, v);
  }

  /** From every table a client left alone finishes its walk. */
  lemma {:induction false} WalkCanFinish(t: Table, user: Uuid, limit: int) returns (w: seq<Visit>)
    requires Valid(t)
    ensures IsWalk(w, user, limit) && NewerWalk(w) && Finished(w, limit) && w[0].table == t
  {
    w := [Visit(t, Respond(Keys(t, user), None, limit))];
    while !Finished(w, limit)
      invariant IsWalk(w, user, limit) && NewerWalk(w)
      invariant w[0].table == t && w[|w| - 1].table == t
      decreases |Under(Keys(t, user), CursorAt(w, |w| - 1))|
    {
      var v := OneMoreVisit(w, t, user, limit);
      w := w + [v];
    }
  }
}
