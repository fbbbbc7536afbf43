/**
 Sessions and the cache in front of them. A validation that misses the cache asks the
 database and then fills the cache; the two are separate steps here, so that other requests
 may run between them.
 */
module Sessions {
  import opened Prelude

  datatype Session = Session(id: Uuid, expiresAt: Time)

  /** user_sessions, keyed by its UNIQUE (user, device). */
  type Rows = map<(Uuid, Uuid), Session>

  /** The `session:<id>` keys with their expiry times. */
  type Cache = map<Uuid, Time>

  /** `upsert_session`: a login on a known device takes over its row under a new id. */
  function Upserted(rows: Rows, user: Uuid, device: Uuid, id: Uuid, expiresAt: Time): Rows {
    rows[(user, device) := Session(id, expiresAt)]
  }

  function Deleted(rows: Rows, user: Uuid, id: Uuid): Rows {
    map k | k in rows && !(k.0 == user && rows[k].id == id) :: rows[k]
  }

  /** `is_session_valid` */
  predicate Valid(rows: Rows, user: Uuid, id: Uuid, now: Time) {
    exists k :: k in rows && k.0 == user && rows[k].id == id && rows[k].expiresAt > now
  }

  predicate Cached(cache: Cache, id: Uuid, now: Time) {
    id in cache && now < cache[id]
  }

  /** SETEX, which refuses a zero lifetime; the caller ignores the refusal. */
  function SetEx(cache: Cache, id: Uuid, ttl: Time, now: Time): Cache {
    if ttl == 0 then cache else cache[id := now + ttl]
  }

  // ---- Runs ---------------------------------------------------------------------------------------

  /** A validation that the database has confirmed and that has yet to fill the cache. */
  datatype Fill = Fill(user: Uuid, id: Uuid, checkedAt: Time)

  /** The lifetime of cache entries, and the longest time from a database check to its cache write. */
  datatype Config = Config(ttl: Time, delay: Time)

  /** `issued` remembers the owner of every id ever drawn; tokens carry these pairs. */
  datatype State = State(rows: Rows, cache: Cache, fills: map<nat, Fill>, issued: map<Uuid, Uuid>, now: Time)

  datatype Event =
    | Login(user: Uuid, device: Uuid, id: Uuid, lifetime: Time)
    | Delete(user: Uuid, id: Uuid)
    | Forget(id: Uuid)
    | Check(task: nat, user: Uuid, id: Uuid)
    | Write(task: nat)
    | Tick(elapsed: Time)

  const START := State(map[], map[], map[], map[], 0)

  /** The answer `validate_session` gives a token at this moment. */
  predicate Accepts(s: State, user: Uuid, id: Uuid) {
    id in s.issued && s.issued[id] == user && (Cached(s.cache, id, s.now) || Valid(s.rows, user, id, s.now))
  }

  function Step(c: Config, s: State, e: Event): State {
    match e
    case Login(user, device, id, lifetime) =>
      if id in s.issued then s
      else s.(rows := Upserted(s.rows, user, device, id, s.now + lifetime), issued := s.issued[id := user])
    case Delete(user, id) => s.(rows := Deleted(s.rows, user, id))
    case Forget(id) => s.(cache := s.cache - {id})
    case Check(task, user, id) =>
      if task in s.fills || !Accepts(s, user, id) || Cached(s.cache, id, s.now) then s
      else s.(fills := s.fills[task := Fill(user, id, s.now)])
    case Write(task) =>
      if task !in s.fills || s.now > s.fills[task].checkedAt + c.delay then s
      else s.(cache := SetEx(s.cache, s.fills[task].id, c.ttl, s.now), fills := s.fills - {task})
    case Tick(elapsed) => s.(now := s.now + elapsed)
  }

  function Run(c: Config, s: State, es: seq<Event>): State {
    if es == [] then s else Step(c, Run(c, s, es[..|es| - 1]), es[|es| - 1])
  }

  /** Every row's id was issued to the row's user, and no two rows share an id. */
  ghost predicate Owned(s: State) {
    && (forall k :: k in s.rows ==> s.rows[k].id in s.issued && s.issued[s.rows[k].id] == k.0)
    && (forall j, k :: j in s.rows && k in s.rows && s.rows[j].id == s.rows[k].id ==> j == k)
    && (forall i :: i in s.cache ==> i in s.issued)
    && (forall t :: t in s.fills ==> s.fills[t].id in s.issued && s.issued[s.fills[t].id] == s.fills[t].user)
  }

  lemma {:induction false} StepKeepsOwned(c: Config, s: State, e: Event)
    requires Owned(s)
    ensures Owned(Step(c, s, e))
  {
  }

  lemma {:induction false} RunKeepsOwned(c: Config, s: State, es: seq<Event>)
    requires Owned(s)
    ensures Owned(Run(c, s, es))
  {
    if es != [] {
      RunKeepsOwned(c, s, es[..|es| - 1]);
      StepKeepsOwned(c, Run(c, s, es[..|es| - 1]), es[|es| - 1]);
    }
  }

  // ---- How stale an accepted session can be ----------------------------------------------------------

  /** The session was valid in the database at step `n`, at time `at` or later. */
  ghost predicate WasValid(c: Config, es: seq<Event>, n: nat, user: Uuid, id: Uuid, at: int)
    requires n <= |es|
  {
    var s := Run(c, START, es[..n]);
    s.now >= at && Valid(s.rows, user, id, s.now)
  }

  /** At some step of the run, at time `at` or later, the session was valid. */
  ghost predicate ValidSince(c: Config, es: seq<Event>, user: Uuid, id: Uuid, at: int) {
    exists n: nat :: n <= |es| && WasValid(c, es, n, user, id, at)
  }

  /** The session behind a cache entry was valid when the entry was checked. */
  ghost predicate EntryBacked(c: Config, es: seq<Event>, i: Uuid) {
    var s := Run(c, START, es);
    i in s.cache ==> i in s.issued && ValidSince(c, es, s.issued[i], i, s.cache[i] - c.ttl - c.delay)
  }

  ghost predicate FillBacked(c: Config, es: seq<Event>, t: nat) {
    var s := Run(c, START, es);
    t in s.fills ==> ValidSince(c, es, s.fills[t].user, s.fills[t].id, s.fills[t].checkedAt)
  }

  lemma {:induction false} LongerRun(c: Config, es: seq<Event>, e: Event, user: Uuid, id: Uuid, at: int)
    requires ValidSince(c, es, user, id, at)
    ensures ValidSince(c, es + [e], user, id, at)
  {
    var n: nat :| n <= |es| && WasValid(c, es, n, user, id, at);
    assert (es + [e])[..n] == es[..n];
    assert WasValid(c, es + [e], n, user, id, at);
  }

  lemma {:induction false} ValidNow(c: Config, es: seq<Event>, user: Uuid, id: Uuid)
    requires Valid(Run(c, START, es).rows, user, id, Run(c, START, es).now)
    ensures ValidSince(c, es, user, id, Run(c, START, es).now)
  {
    assert es[..|es|] == es;
    assert WasValid(c, es, |es|, user, id, Run(c, START, es).now);
  }

  lemma {:induction false} Earlier(c: Config, es: seq<Event>, user: Uuid, id: Uuid, at: int, earlier: int)
    requires ValidSince(c, es, user, id, at) && earlier <= at
    ensures ValidSince(c, es, user, id, earlier)
  {
    var n: nat :| n <= |es| && WasValid(c, es, n, user, id, at);
    assert WasValid(c, es, n, user, id, earlier);
  }

  lemma {:induction false} RunSnoc(c: Config, s: State, es: seq<Event>, e: Event)
    ensures Run(c, s, es + [e]) == Step(c, Run(c, s, es), e)
  {
    assert (es + [e])[..|es|] == es;
  }

  /** A cache entry is an old one, or comes from a database check not long ago. */
  lemma {:induction false} EntrySource(c: Config, s: State, e: Event, i: Uuid)
    requires Owned(s) && i in Step(c, s, e).cache
    ensures var s' := Step(c, s, e);
            || (i in s.cache && s'.cache[i] == s.cache[i])
            || (e.Write? && e.task in s.fills && s.fills[e.task].id == i && s.issued[i] == s.fills[e.task].user
                && s'.cache[i] <= s.fills[e.task].checkedAt + c.delay + c.ttl)
    ensures i in s.issued && i in Step(c, s, e).issued && Step(c, s, e).issued[i] == s.issued[i]
  {
  }

  lemma {:induction false} FillSource(c: Config, s: State, e: Event, t: nat)
    requires t in Step(c, s, e).fills
    ensures var f := Step(c, s, e).fills[t];
            (t in s.fills && f == s.fills[t]) || (f.checkedAt == s.now && Valid(s.rows, f.user, f.id, s.now))
  {
  }

  lemma {:induction false} WrittenSupported(c: Config, es: seq<Event>, f: Fill, entry: Time)
    requires ValidSince(c, es, f.user, f.id, f.checkedAt) && entry <= f.checkedAt + c.delay + c.ttl
    ensures ValidSince(c, es, f.user, f.id, entry - c.ttl - c.delay)
  {
    Earlier(c, es, f.user, f.id, f.checkedAt, entry - c.ttl - c.delay);
  }

  lemma {:induction false} EntrySupported(c: Config, es: seq<Event>, e: Event, i: Uuid, s: State, s': State)
    requires s == Run(c, START, es) && EntryBacked(c, es, i) && (e.Write? ==> FillBacked(c, es, e.task))
    requires Owned(s) && s' == Step(c, s, e) && i in s'.cache
    ensures i in s'.issued && ValidSince(c, es, s'.issued[i], i, s'.cache[i] - c.ttl - c.delay)
  {
    EntrySource(c, s, e, i);
    if !(i in s.cache && s'.cache[i] == s.cache[i]) {
      WrittenSupported(c, es, s.fills[e.task], s'.cache[i]);
    }
  }

  lemma {:induction false} LongerEntry(c: Config, es: seq<Event>, e: Event, i: Uuid, s': State)
    requires s' == Run(c, START, es + [e])
    requires i in s'.cache ==> i in s'.issued && ValidSince(c, es, s'.issued[i], i, s'.cache[i] - c.ttl - c.delay)
    ensures EntryBacked(c, es + [e], i)
  {
    if i in s'.cache {
      LongerRun(c, es, e, s'.issued[i], i, s'.cache[i] - c.ttl - c.delay);
    }
  }

  lemma {:induction false} EntryStaysBacked(c: Config, es: seq<Event>, e: Event, i: Uuid, s': State)
    requires EntryBacked(c, es, i) && (e.Write? ==> FillBacked(c, es, e.task))
    requires Owned(Run(c, START, es)) && s' == Step(c, Run(c, START, es), e) && s' == Run(c, START, es + [e])
    ensures EntryBacked(c, es + [e], i)
  {
    if i in s'.cache {
      EntrySupported(c, es, e, i, Run(c, START, es), s');
    }
    LongerEntry(c, es, e, i, s');
  }

  lemma {:induction false} FillStaysBacked(c: Config, es: seq<Event>, e: Event, t: nat)
    requires FillBacked(c, es, t)
    ensures FillBacked(c, es + [e], t)
  {
    var s := Run(c, START, es);
    RunSnoc(c, START, es, e);
    if t in Step(c, s, e).fills {
      FillSource(c, s, e, t);
      var f := Step(c, s, e).fills[t];
      if !(t in s.fills && f == s.fills[t]) {
        ValidNow(c, es, f.user, f.id);
      }
      LongerRun(c, es, e, f.user, f.id, f.checkedAt);
    }
  }

  lemma {:induction false} FillsBacked(c: Config, es: seq<Event>, t: nat)
    ensures FillBacked(c, es, t)
  {
    if es != [] {
      var before, e := es[..|es| - 1], es[|es| - 1];
      assert before + [e] == es;
      FillsBacked(c, before, t);
      FillStaysBacked(c, before, e, t);
    }
  }

  lemma {:induction false} EntriesBacked(c: Config, es: seq<Event>, i: Uuid)
    ensures EntryBacked(c, es, i)
  {
    if es != [] {
      var before, e := es[..|es| - 1], es[|es| - 1];
      assert before + [e] == es;
      EntriesBacked(c, before, i);
      if e.Write? {
        FillsBacked(c, before, e.task);
      }
      RunSnoc(c, START, before, e);
      RunKeepsOwned(c, START, before);
      EntryStaysBacked(c, before, e, i, Run(c, START, es));
    }
  }

  /**
   An accepted session was valid in the database at some time in (now - ttl - delay, now],
   or is valid now; with an atomic validation the delay is 0.
   */
  lemma {:induction false} AcceptedWasRecentlyValid(c: Config, es: seq<Event>, user: Uuid, id: Uuid)
    requires Accepts(Run(c, START, es), user, id)
    ensures ValidSince(c, es, user, id, Min(Run(c, START, es).now, Run(c, START, es).now - c.ttl - c.delay + 1))
  {
    var s := Run(c, START, es);
    EntriesBacked(c, es, id);
    if Cached(s.cache, id, s.now) {
      Earlier(c, es, user, id, s.cache[id] - c.ttl - c.delay, Min(s.now, s.now - c.ttl - c.delay + 1));
    } else {
      ValidNow(c, es, user, id);
      Earlier(c, es, user, id, s.now, Min(s.now, s.now - c.ttl - c.delay + 1));
    }
  }

  // ---- Sessions and their logins -----------------------------------------------------------------

  /** Event `n` opens the session `id` of the user, for `lifetime`. */
  ghost predicate OpensAt(c: Config, es: seq<Event>, n: nat, user: Uuid, id: Uuid, until: Time)
    requires n < |es|
  {
    && es[n].Login? && es[n].user == user && es[n].id == id
    && until == Run(c, START, es[..n]).now + es[n].lifetime
  }

  /** Some login of the run opened the session until this time. */
  ghost predicate Opened(c: Config, es: seq<Event>, user: Uuid, id: Uuid, until: Time) {
    exists n: nat :: n < |es| && OpensAt(c, es, n, user, id, until)
  }

  lemma {:induction false} OpenedLasts(c: Config, es: seq<Event>, e: Event, user: Uuid, id: Uuid, until: Time)
    requires Opened(c, es, user, id, until)
    ensures Opened(c, es + [e], user, id, until)
  {
    var n: nat :| n < |es| && OpensAt(c, es, n, user, id, until);
    assert (es + [e])[..n] == es[..n];
    assert OpensAt(c, es + [e], n, user, id, until);
  }

  /** A row is an old one, or the login's own. */
  lemma RowSource(c: Config, s: State, e: Event, k: (Uuid, Uuid))
    requires k in Step(c, s, e).rows
    ensures var row := Step(c, s, e).rows[k];
            (k in s.rows && row == s.rows[k])
            || (e.Login? && k.0 == e.user && row.id == e.id && row.expiresAt == s.now + e.lifetime)
  {
  }

  /** Over all runs every row has the user, id and expiry of a login. */
  lemma {:induction false} RowsComeFromLogins(c: Config, es: seq<Event>, k: (Uuid, Uuid))
    requires k in Run(c, START, es).rows
    ensures var row := Run(c, START, es).rows[k]; Opened(c, es, k.0, row.id, row.expiresAt)
  {
    var n := |es| - 1;
    var s, e := Run(c, START, es[..n]), es[n];
    var row := Run(c, START, es).rows[k];
    assert es == es[..n] + [e];
    RowSource(c, s, e, k);
    if k in s.rows && row == s.rows[k] {
      RowsComeFromLogins(c, es[..n], k);
      OpenedLasts(c, es[..n], e, k.0, row.id, row.expiresAt);
    } else {
      assert OpensAt(c, es, n, k.0, row.id, row.expiresAt);
    }
  }

  lemma {:induction false} OpenedEarlier(c: Config, es: seq<Event>, n: nat, user: Uuid, id: Uuid, until: Time)
    requires n <= |es| && Opened(c, es[..n], user, id, until)
    ensures Opened(c, es, user, id, until)
  {
    var m: nat :| m < |es[..n]| && OpensAt(c, es[..n], m, user, id, until);
    assert es[..n][..m] == es[..m];
    assert OpensAt(c, es, m, user, id, until);
  }

  /** A session that was valid at `at` or later was opened by a login until after that time. */
  lemma {:induction false} ValidWasOpened(c: Config, es: seq<Event>, user: Uuid, id: Uuid, at: int) returns (until: Time)
    requires ValidSince(c, es, user, id, at)
    ensures Opened(c, es, user, id, until) && at < until
  {
    var n: nat :| n <= |es| && WasValid(c, es, n, user, id, at);
    var s := Run(c, START, es[..n]);
    var k :| k in s.rows && k.0 == user && s.rows[k].id == id && s.rows[k].expiresAt > s.now;
    until := s.rows[k].expiresAt;
    RowsComeFromLogins(c, es[..n], k);
    OpenedEarlier(c, es, n, user, id, until);
  }

  /** Event `n` opens the session, no longer ago than its lifetime and that of a cache entry. */
  ghost predicate RecentLogin(c: Config, es: seq<Event>, n: nat, user: Uuid, id: Uuid)
    requires n < |es|
  {
    && es[n].Login? && es[n].user == user && es[n].id == id
    && Run(c, START, es).now < Run(c, START, es[..n]).now + es[n].lifetime + c.ttl + c.delay
  }

  /**
   An accepted session was opened by a login of its user, and is accepted for no longer than
   that login's lifetime plus the lifetime and delay of a cache entry.
   */
  lemma {:induction false} AcceptedWasLoggedIn(c: Config, es: seq<Event>, user: Uuid, id: Uuid)
    requires Accepts(Run(c, START, es), user, id)
    ensures exists n: nat :: n < |es| && RecentLogin(c, es, n, user, id)
  {
    var now := Run(c, START, es).now;
    AcceptedWasRecentlyValid(c, es, user, id);
    var until := ValidWasOpened(c, es, user, id, Min(now, now - c.ttl - c.delay + 1));
    var n: nat :| n < |es| && OpensAt(c, es, n, user, id, until);
    assert RecentLogin(c, es, n, user, id);
  }

  /** When every login of a session lies far enough back after some waiting, it is refused. */
  lemma {:induction false} WaitingEndsSessions(c: Config, es: seq<Event>, elapsed: Time, user: Uuid, id: Uuid)
    requires forall n: nat :: n < |es| && es[n].Login? && es[n].id == id ==>
               Run(c, START, es[..n]).now + es[n].lifetime + c.ttl + c.delay <= Run(c, START, es).now + elapsed
    ensures !Accepts(Run(c, START, es + [Tick(elapsed)]), user, id)
  {
    var all := es + [Tick(elapsed)];
    RunSnoc(c, START, es, Tick(elapsed));
    forall n: nat | n < |all| ensures !RecentLogin(c, all, n, user, id) {
      if n < |es| {
        assert all[..n] == es[..n];
      }
    }
    if Accepts(Run(c, START, all), user, id) {
      AcceptedWasLoggedIn(c, all, user, id);
    }
  }

  /** This event neither deletes the session nor logs in on its device. */
  ghost predicate Spares(e: Event, user: Uuid, device: Uuid, id: Uuid) {
    e != Delete(user, id) && !(e.Login? && e.user == user && e.device == device)
  }

  lemma {:induction false} RowStays(c: Config, s: State, rest: seq<Event>, user: Uuid, device: Uuid, row: Session)
    requires (user, device) in s.rows && s.rows[(user, device)] == row && row.id in s.issued && s.issued[row.id] == user
    requires forall i :: 0 <= i < |rest| ==> Spares(rest[i], user, device, row.id)
    ensures var t := Run(c, s, rest);
            (user, device) in t.rows && t.rows[(user, device)] == row && row.id in t.issued && t.issued[row.id] == user
  {
    if rest != [] {
      RowStays(c, s, rest[..|rest| - 1], user, device, row);
      assert Spares(rest[|rest| - 1], user, device, row.id);
    }
  }

  /** A fresh login is accepted for its whole lifetime unless the session is deleted or its device logs in again. */
  lemma {:induction false} LoginIsAccepted(c: Config, s: State, rest: seq<Event>, user: Uuid, device: Uuid, id: Uuid, lifetime: Time)
    requires id !in s.issued
    requires forall i :: 0 <= i < |rest| ==> Spares(rest[i], user, device, id)
    requires Run(c, Step(c, s, Login(user, device, id, lifetime)), rest).now < s.now + lifetime
    ensures Accepts(Run(c, Step(c, s, Login(user, device, id, lifetime)), rest), user, id)
  {
    RowStays(c, Step(c, s, Login(user, device, id, lifetime)), rest, user, device, Session(id, s.now + lifetime));
  }

  // ---- Revocation --------------------------------------------------------------------------------

  ghost predicate NoRow(s: State, id: Uuid) {
    id in s.issued && forall k :: k in s.rows ==> s.rows[k].id != id
  }

  lemma {:induction false} StepKeepsNoRow(c: Config, s: State, e: Event, id: Uuid)
    requires NoRow(s, id)
    ensures NoRow(Step(c, s, e), id)
  {
  }

  lemma {:induction false} ClockAdvances(c: Config, s: State, rest: seq<Event>)
    ensures s.now <= Run(c, s, rest).now
  {
    if rest != [] {
      ClockAdvances(c, s, rest[..|rest| - 1]);
    }
  }

  lemma {:induction false} RunKeepsNoRow(c: Config, s: State, rest: seq<Event>, id: Uuid)
    requires NoRow(s, id)
    ensures NoRow(Run(c, s, rest), id)
  {
    if rest != [] {
      RunKeepsNoRow(c, s, rest[..|rest| - 1], id);
      StepKeepsNoRow(c, Run(c, s, rest[..|rest| - 1]), rest[|rest| - 1], id);
    }
  }

  lemma {:induction false} RunSplit(c: Config, s: State, es: seq<Event>, m: nat)
    requires m <= |es|
    ensures Run(c, s, es) == Run(c, Run(c, s, es[..m]), es[m..])
    decreases |es|
  {
    if m < |es| {
      var n := |es| - 1;
      assert es[..n][..m] == es[..m] && es[..n][m..] == es[m..][..n - m];
      RunSplit(c, s, es[..n], m);
    } else {
      assert es[..m] == es;
    }
  }

  /** Deleting a session, or logging in again on its device, takes its row away for good. */
  lemma {:induction false} RowsGo(c: Config, s: State, user: Uuid, device: Uuid, id: Uuid, next: Uuid, lifetime: Time)
    requires Owned(s)
    ensures id in s.issued && s.issued[id] == user ==> NoRow(Step(c, s, Delete(user, id)), id)
    ensures (user, device) in s.rows && s.rows[(user, device)].id == id && next !in s.issued ==>
              NoRow(Step(c, s, Login(user, device, next, lifetime)), id)
  {
  }

  lemma {:induction false} ValidOnlyBefore(c: Config, es: seq<Event>, m: nat, user: Uuid, id: Uuid, at: int)
    requires m <= |es|
    requires NoRow(Run(c, START, es[..m]), id) && ValidSince(c, es, user, id, at)
    ensures at <= Run(c, START, es[..m]).now
  {
    var n: nat :| n <= |es| && WasValid(c, es, n, user, id, at);
    if m <= n {
      assert es[..n][..m] == es[..m];
      RunSplit(c, START, es[..n], m);
      RunKeepsNoRow(c, Run(c, START, es[..m]), es[..n][m..], id);
    } else {
      assert es[..m][..n] == es[..n];
      RunSplit(c, START, es[..m], n);
      ClockAdvances(c, Run(c, START, es[..n]), es[..m][n..]);
    }
  }

  /** Once the row is gone, the session is refused after at most ttl + delay. */
  lemma {:induction false} RevocationTakesEffect(c: Config, es: seq<Event>, m: nat, user: Uuid, id: Uuid)
    requires m <= |es| && NoRow(Run(c, START, es[..m]), id)
    requires Run(c, START, es).now >= Run(c, START, es[..m]).now + c.ttl + c.delay
    ensures !Accepts(Run(c, START, es), user, id)
  {
    var s := Run(c, START, es);
    RunSplit(c, START, es, m);
    RunKeepsNoRow(c, Run(c, START, es[..m]), es[m..], id);
    EntriesBacked(c, es, id);
    if id in s.cache && s.issued[id] == user {
      ValidOnlyBefore(c, es, m, user, id, s.cache[id] - c.ttl - c.delay);
    }
  }

  lemma {:induction false} OwnerFixed(c: Config, s: State, rest: seq<Event>, id: Uuid)
    requires id in s.issued
    ensures id in Run(c, s, rest).issued && Run(c, s, rest).issued[id] == s.issued[id]
  {
    if rest != [] {
      OwnerFixed(c, s, rest[..|rest| - 1], id);
    }
  }

  /** A confirmed validation of the session that may still fill the cache. */
  ghost predicate FillWaiting(c: Config, s: State, id: Uuid) {
    exists t :: t in s.fills && s.fills[t].id == id && s.now <= s.fills[t].checkedAt + c.delay
  }

  ghost predicate Gone(c: Config, s: State, id: Uuid) {
    NoRow(s, id) && !Cached(s.cache, id, s.now) && (c.ttl == 0 || !FillWaiting(c, s, id))
  }

  lemma {:induction false} StepKeepsGone(c: Config, s: State, e: Event, id: Uuid)
    requires Owned(s) && Gone(c, s, id)
    ensures Gone(c, Step(c, s, e), id)
  {
    var s' := Step(c, s, e);
    forall t | t in s'.fills && s'.fills[t].id == id && s'.now <= s'.fills[t].checkedAt + c.delay
      ensures FillWaiting(c, s, id)
    {
      assert t in s.fills;
    }
  }

  lemma {:induction false} RunKeepsGone(c: Config, s: State, rest: seq<Event>, id: Uuid)
    requires Owned(s) && Gone(c, s, id)
    ensures Gone(c, Run(c, s, rest), id)
  {
    if rest != [] {
      RunKeepsGone(c, s, rest[..|rest| - 1], id);
      RunKeepsOwned(c, s, rest[..|rest| - 1]);
      StepKeepsGone(c, Run(c, s, rest[..|rest| - 1]), rest[|rest| - 1], id);
    }
  }

  ghost predicate NeverAccepted(c: Config, s: State, user: Uuid, id: Uuid) {
    forall rest :: !Accepts(Run(c, s, rest), user, id)
  }

  /** Removing the cache key of a session without a row ends it for good exactly when no cache write of it is to come. */
  lemma {:induction false} ForgetIsFinalIff(c: Config, s: State, user: Uuid, id: Uuid)
    requires Owned(s) && NoRow(s, id) && s.issued[id] == user
    ensures NeverAccepted(c, Step(c, s, Forget(id)), user, id) <==> c.ttl == 0 || !FillWaiting(c, s, id)
  {
    var out := Step(c, s, Forget(id));
    assert FillWaiting(c, out, id) == FillWaiting(c, s, id);
    if c.ttl == 0 || !FillWaiting(c, s, id) {
      forall rest ensures !Accepts(Run(c, out, rest), user, id) {
        RunKeepsGone(c, out, rest, id);
      }
    } else {
      var t :| t in s.fills && s.fills[t].id == id && s.now <= s.fills[t].checkedAt + c.delay;
      RunSnoc(c, out, [], Write(t));
      assert Accepts(Run(c, out, [] + [Write(t)]), user, id);
    }
  }

  /**
   `logout` deletes the row and later the cache key; anything may run between the two. From
   then on the session is never accepted again, unless a validation that the database had
   confirmed is still to write its cache entry; and then it can be.
   */
  lemma {:induction false} LogoutIsFinalIff(c: Config, s: State, between: seq<Event>, user: Uuid, id: Uuid)
    requires Owned(s) && id in s.issued && s.issued[id] == user
    ensures var deleted := Run(c, Step(c, s, Delete(user, id)), between);
            NeverAccepted(c, Step(c, deleted, Forget(id)), user, id) <==> c.ttl == 0 || !FillWaiting(c, deleted, id)
  {
    var gone := Step(c, s, Delete(user, id));
    RowsGo(c, s, user, 0, id, 0, 0);
    StepKeepsOwned(c, s, Delete(user, id));
    RunKeepsNoRow(c, gone, between, id);
    RunKeepsOwned(c, gone, between);
    OwnerFixed(c, gone, between, id);
    ForgetIsFinalIff(c, Run(c, gone, between), user, id);
  }

  /** The undisturbed method is a check followed at once by its cache write. */
  lemma {:induction false} ValidateIsCheckAndWrite(c: Config, s: State, task: nat, user: Uuid, id: Uuid)
    requires task !in s.fills && id in s.issued && s.issued[id] == user
    ensures var s' := Step(c, Step(c, s, Check(task, user, id)), Write(task));
            s' == if Accepts(s, user, id) && !Cached(s.cache, id, s.now)
                  then s.(cache := SetEx(s.cache, id, c.ttl, s.now)) else s
  {
    var checked := Step(c, s, Check(task, user, id));
    if task in checked.fills {
      assert checked.fills - {task} == s.fills;
    }
  }

  // ---- The store ---------------------------------------------------------------------------------

  class SessionStore {
    var rows: Rows
    var cache: Cache
    const accessTtl: Time

    constructor (accessTtl: Time)
      ensures rows == map[] && cache == map[] && this.accessTtl == accessTtl
    {
      rows, cache := map[], map[];
      this.accessTtl := accessTtl;
    }

    method UpsertSession(user: Uuid, device: Uuid, drawn: Uuid, expiresAt: Time) returns (id: Uuid)
      modifies this`rows
      ensures id == drawn && rows == Upserted(old(rows), user, device, drawn, expiresAt)
    {
      if (user, device) in rows {
        rows := rows[(user, device) := rows[(user, device)].(id := drawn, expiresAt := expiresAt)];
      } else {
        rows := rows[(user, device) := Session(drawn, expiresAt)];
      }
      id := rows[(user, device)].id;
    }

    method DeleteSession(user: Uuid, id: Uuid) returns (deleted: bool)
      modifies this`rows
      ensures rows == Deleted(old(rows), user, id)
      ensures deleted <==> exists k :: k in old(rows) && k.0 == user && old(rows)[k].id == id
    {
      var hits := set k | k in rows && k.0 == user && rows[k].id == id;
      deleted := hits != {};
      ghost var was := rows;
      rows := rows - hits;
      assert rows == Deleted(was, user, id);
      if deleted {
        ghost var k := Element(hits);
        assert k in was && k.0 == user && was[k].id == id;
      } else {
        assert forall k :: k in was && k.0 == user && was[k].id == id ==> k in hits;
      }
    }

    /** `validate_session`, undisturbed. */
    method ValidateSession(user: Uuid, id: Uuid, now: Time) returns (accepted: bool)
      modifies this`cache
      ensures accepted <==> Cached(old(cache), id, now) || Valid(rows, user, id, now)
      ensures cache == if accepted && !Cached(old(cache), id, now) then SetEx(old(cache), id, accessTtl, now) else old(cache)
    {
      if id in cache && now < cache[id] {
        return true;
      }
      var valid := Valid(rows, user, id, now);
      if valid && accessTtl > 0 {
        cache := cache[id := now + accessTtl];
      }
      return valid;
    }

    method Logout(user: Uuid, id: Uuid)
      modifies this
      ensures rows == Deleted(old(rows), user, id) && cache == old(cache) - {id}
    {
      var _ := DeleteSession(user, id);
      cache := cache - {id};
    }
  }
}
