/**
 The pool of one-time prekeys: bundle fetches run as concurrent transactions that lock
 the lowest unlocked free key, uploads insert keys and recount the cached counter.
 */
module Prekeys {
  import opened Prelude

  datatype OneTimePrekey = OneTimePrekey(id: int, key: string)

  datatype OpkRow = OpkRow(userId: Uuid, keyId: int, publicKey: string, consumed: bool)

  datatype SignedPrekey = SignedPrekey(id: int, key: string, signature: string)

  datatype KeyRow = KeyRow(identityKey: string, signedPrekey: SignedPrekey, prekeyCount: int)

  /**
   A running `get_user_public_keys` transaction. `Locked` has run its SELECT FOR UPDATE;
   `Marked` has also written the consumed flag and, when the user has a key row, the new
   counter. The writes become visible at commit; the counter write holds the key row's lock.
   */
  datatype Fetch =
    | Locked(userId: Uuid, row: Option<nat>)
    | Marked(userId: Uuid, taken: nat, newCount: Option<int>)

  /** A key handed out by a committed fetch. */
  datatype Handed = Handed(userId: Uuid, keyId: int, row: nat)

  /** A running recount: its statement has counted the free keys and waits for the key row. */
  datatype Recount = Recount(userId: Uuid, found: nat)

  /** Committed tables, running fetches and recounts, and the history of committed fetches. */
  datatype Db = Db(
    opks: map<nat, OpkRow>,
    nextId: nat,
    keys: map<Uuid, KeyRow>,
    fetches: map<nat, Fetch>,
    recounts: map<nat, Recount>,
    handed: seq<Handed>)

  const EMPTY := Db(map[], 1, map[], map[], map[], [])

  function Free(opks: map<nat, OpkRow>, user: Uuid): set<nat> {
    set r | r in opks && opks[r].userId == user && !opks[r].consumed
  }

  predicate Holds(f: Fetch, row: nat) {
    match f
    case Locked(_, r) => r == Some(row)
    case Marked(_, r, _) => r == row
  }

  /** Rows a SELECT FOR UPDATE SKIP LOCKED can take. */
  function Available(s: Db, user: Uuid): set<nat> {
    set r | r in Free(s.opks, user) && forall t :: t in s.fetches ==> !Holds(s.fetches[t], r)
  }

  /** Does a marked fetch hold the lock on the user's key row? */
  predicate KeyRowLocked(fetches: map<nat, Fetch>, user: Uuid) {
    exists t :: t in fetches && Counting(fetches[t]) && fetches[t].userId == user
  }

  predicate Counting(f: Fetch) {
    f.Marked? && f.newCount.Some?
  }

  predicate SameCounter(f: Fetch, g: Fetch) {
    Counting(f) && Counting(g) && f.userId == g.userId
  }

  predicate HasKey(opks: map<nat, OpkRow>, user: Uuid, keyId: int) {
    exists r :: r in opks && opks[r].userId == user && opks[r].keyId == keyId
  }

  /** One tuple of INSERT ... ON CONFLICT (user_id, key_id) DO NOTHING; the sequence advances either way. */
  function InsertOne(s: Db, user: Uuid, k: OneTimePrekey): Db {
    if HasKey(s.opks, user, k.id) then s.(nextId := s.nextId + 1)
    else s.(opks := s.opks[s.nextId := OpkRow(user, k.id, k.key, false)], nextId := s.nextId + 1)
  }

  function InsertAll(s: Db, user: Uuid, batch: seq<OneTimePrekey>): Db {
    if batch == [] then s
    else InsertOne(InsertAll(s, user, batch[..|batch| - 1]), user, batch[|batch| - 1])
  }

  function CountWritten(s: Db, user: Uuid, found: nat): Db {
    if user in s.keys then s.(keys := s.keys[user := s.keys[user].(prekeyCount := found)]) else s
  }

  function Recounted(s: Db, user: Uuid): Db {
    CountWritten(s, user, |Free(s.opks, user)|)
  }

  datatype Event =
    | Upsert(userId: Uuid, identityKey: string, signedPrekey: SignedPrekey)
    | Insert(userId: Uuid, batch: seq<OneTimePrekey>)
    | CountFree(task: nat, userId: Uuid)
    | WriteCount(task: nat)
    | Upload(userId: Uuid, batch: seq<OneTimePrekey>)
    | Begin(tx: nat, userId: Uuid)
    | Mark(tx: nat)
    | Commit(tx: nat)
    | Abort(tx: nat)

  /**
   A write that would wait for a row lock is not taken yet: it leaves the state as it is. A
   recount counts in its own snapshot, so its count and its write are two steps.
   */
  function Step(s: Db, e: Event): Db {
    match e
    case Upsert(user, identity, signed) =>
      if KeyRowLocked(s.fetches, user) then s
      else s.(keys := s.keys[user := KeyRow(identity, signed, if user in s.keys then s.keys[user].prekeyCount else 0)])
    case Insert(user, batch) => InsertAll(s, user, batch)
    case CountFree(task, user) =>
      if task in s.recounts then s
      else s.(recounts := s.recounts[task := Recount(user, |Free(s.opks, user)|)])
    case WriteCount(task) =>
      if task !in s.recounts || KeyRowLocked(s.fetches, s.recounts[task].userId) then s
      else CountWritten(s, s.recounts[task].userId, s.recounts[task].found).(recounts := s.recounts - {task})
    case Upload(user, batch) => if KeyRowLocked(s.fetches, user) then s else Recounted(InsertAll(s, user, batch), user)
    case Begin(tx, user) =>
      if tx in s.fetches then s else
        var free := Available(s, user);
        s.(fetches := s.fetches[tx := Locked(user, if free == {} then None else Some(Least(free)))])
    case Mark(tx) =>
      if tx in s.fetches && s.fetches[tx].Locked? && s.fetches[tx].row.Some? && !KeyRowLocked(s.fetches, s.fetches[tx].userId)
      then s.(fetches := s.fetches[tx := MarkedFetch(s, s.fetches[tx].userId, s.fetches[tx].row.value)])
      else s
    case Commit(tx) => if tx in s.fetches then Committed(s, tx) else s
    case Abort(tx) => s.(fetches := s.fetches - {tx})
  }

  function MarkedFetch(s: Db, user: Uuid, row: nat): Fetch {
    Marked(user, row, if user in s.keys then Some(Max(s.keys[user].prekeyCount - 1, 0)) else None)
  }

  /** Only a fetch that found no key, or has marked its key, reaches its end. */
  function Committed(s: Db, tx: nat): Db
    requires tx in s.fetches
  {
    match s.fetches[tx]
    case Locked(_, None) => s.(fetches := s.fetches - {tx})
    case Locked(_, Some(_)) => s
    case Marked(user, row, newCount) =>
      if row !in s.opks then s else
        s.(
          opks := s.opks[row := s.opks[row].(consumed := true)],
          keys := if newCount.Some? && user in s.keys
                  then s.keys[user := s.keys[user].(prekeyCount := newCount.value)] else s.keys,
          fetches := s.fetches - {tx},
          handed := s.handed + [Handed(user, s.opks[row].keyId, row)])
  }

  function Run(s: Db, es: seq<Event>): Db {
    if es == [] then s else Step(Run(s, es[..|es| - 1]), es[|es| - 1])
  }

  // ---- The allocator's invariant -----------------------------------------------------

  /** Row ids come from the sequence and UNIQUE (user_id, key_id) holds. */
  ghost predicate TablesOk(s: Db) {
    && (forall r :: r in s.opks ==> r < s.nextId)
    && (forall q, r :: q in s.opks && r in s.opks && s.opks[q].userId == s.opks[r].userId && s.opks[q].keyId == s.opks[r].keyId ==> q == r)
  }

  /** Every running fetch holds a free row of its user, and no row is held twice. */
  ghost predicate LocksOk(s: Db) {
    && (forall t, r :: t in s.fetches && Holds(s.fetches[t], r) ==> r in Free(s.opks, s.fetches[t].userId))
    && (forall t, u, r :: t in s.fetches && u in s.fetches && Holds(s.fetches[t], r) && Holds(s.fetches[u], r) ==> t == u)
  }

  /** The consumed rows are exactly the rows handed out, each once. */
  ghost predicate HandedOk(s: Db) {
    && (forall i :: 0 <= i < |s.handed| ==>
          var h := s.handed[i];
          h.row in s.opks && s.opks[h.row].consumed && s.opks[h.row].userId == h.userId && s.opks[h.row].keyId == h.keyId)
    && (forall i, j :: 0 <= i < j < |s.handed| ==> s.handed[i].row != s.handed[j].row)
    && (forall r :: r in s.opks && s.opks[r].consumed ==> exists i :: 0 <= i < |s.handed| && s.handed[i].row == r)
  }

  ghost predicate Inv(s: Db) {
    TablesOk(s) && LocksOk(s) && HandedOk(s)
  }

  /** Rows of `s` are kept, and new rows are free rows of this user. */
  ghost predicate Grown(s: Db, t: Db, user: Uuid) {
    && t.keys == s.keys && t.fetches == s.fetches && t.recounts == s.recounts && t.handed == s.handed
    && (forall r :: r in s.opks ==> r in t.opks && t.opks[r] == s.opks[r])
    && (forall r :: r in t.opks && r !in s.opks ==> t.opks[r].userId == user && !t.opks[r].consumed)
  }

  lemma GrownTwice(s: Db, m: Db, t: Db, user: Uuid)
    requires Grown(s, m, user) && Grown(m, t, user)
    ensures Grown(s, t, user)
  {
  }

  lemma GrownKeepsLocks(s: Db, t: Db, user: Uuid)
    requires LocksOk(s) && Grown(s, t, user)
    ensures LocksOk(t)
  {
  }

  lemma GrownKeepsHanded(s: Db, t: Db, user: Uuid)
    requires HandedOk(s) && Grown(s, t, user)
    ensures HandedOk(t)
  {
  }

  lemma {:induction false} InsertOneTables(s: Db, user: Uuid, k: OneTimePrekey)
    requires TablesOk(s)
    ensures TablesOk(InsertOne(s, user, k)) && Grown(s, InsertOne(s, user, k), user)
  {
  }

  lemma {:induction false} InsertOneKeeps(s: Db, user: Uuid, k: OneTimePrekey)
    requires Inv(s)
    ensures Inv(InsertOne(s, user, k)) && Grown(s, InsertOne(s, user, k), user)
  {
    InsertOneTables(s, user, k);
    GrownKeepsLocks(s, InsertOne(s, user, k), user);
    GrownKeepsHanded(s, InsertOne(s, user, k), user);
  }

  lemma {:induction false} InsertAllKeeps(s: Db, user: Uuid, batch: seq<OneTimePrekey>)
    requires Inv(s)
    ensures Inv(InsertAll(s, user, batch)) && Grown(s, InsertAll(s, user, batch), user)
  {
    if batch != [] {
      var n := |batch| - 1;
      InsertAllKeeps(s, user, batch[..n]);
      var m := InsertAll(s, user, batch[..n]);
      InsertOneKeeps(m, user, batch[n]);
      GrownTwice(s, m, InsertOne(m, user, batch[n]), user);
    }
  }

  lemma {:induction false} KeyStays(s: Db, t: Db, user: Uuid, keyId: int)
    requires Grown(s, t, user) && HasKey(s.opks, user, keyId)
    ensures HasKey(t.opks, user, keyId)
  {
    var r :| r in s.opks && s.opks[r].userId == user && s.opks[r].keyId == keyId;
    assert t.opks[r] == s.opks[r];
  }

  /** After an upload the user has every key id of the batch, new or from before. */
  lemma {:induction false} BatchPresent(s: Db, user: Uuid, batch: seq<OneTimePrekey>, i: nat)
    requires Inv(s) && i < |batch|
    ensures HasKey(InsertAll(s, user, batch).opks, user, batch[i].id)
  {
    var n := |batch| - 1;
    var m := InsertAll(s, user, batch[..n]);
    InsertAllKeeps(s, user, batch[..n]);
    InsertOneKeeps(m, user, batch[n]);
    if i < n {
      BatchPresent(s, user, batch[..n], i);
      KeyStays(m, InsertOne(m, user, batch[n]), user, batch[i].id);
    } else if !HasKey(m.opks, user, batch[n].id) {
      assert InsertOne(m, user, batch[n]).opks[m.nextId].keyId == batch[n].id;
    }
  }

  lemma {:induction false} CommitKeepsHanded(s: Db, tx: nat)
    requires LocksOk(s) && HandedOk(s) && tx in s.fetches
    ensures HandedOk(Committed(s, tx))
  {
    var f := s.fetches[tx];
    if f.Marked? {
      var t := Committed(s, tx);
      assert Holds(f, f.taken);
      var n := |s.handed|;
      forall r | r in t.opks && t.opks[r].consumed ensures exists i :: 0 <= i < |t.handed| && t.handed[i].row == r {
        if r == f.taken {
          assert t.handed[n].row == r;
        } else {
          var i :| 0 <= i < n && s.handed[i].row == r;
          assert t.handed[i].row == r;
        }
      }
    }
  }

  lemma {:induction false} CommitKeepsLocks(s: Db, tx: nat)
    requires LocksOk(s) && tx in s.fetches
    ensures LocksOk(Committed(s, tx))
  {
    var f := s.fetches[tx];
    if f.Marked? {
      assert Holds(f, f.taken);
    }
  }

  lemma {:induction false} CommitKeeps(s: Db, tx: nat)
    requires Inv(s) && tx in s.fetches
    ensures Inv(Committed(s, tx))
  {
    CommitKeepsLocks(s, tx);
    CommitKeepsHanded(s, tx);
  }

  lemma MarkKeeps(s: Db, tx: nat)
    requires Inv(s)
    ensures Inv(Step(s, Mark(tx)))
  {
  }

  lemma BeginKeeps(s: Db, tx: nat, user: Uuid)
    requires Inv(s)
    ensures Inv(Step(s, Begin(tx, user)))
  {
  }

  lemma SameRowsKeep(s: Db, t: Db)
    requires Inv(s) && t.opks == s.opks && t.nextId == s.nextId && t.handed == s.handed
    requires forall q :: q in t.fetches ==> q in s.fetches && t.fetches[q] == s.fetches[q]
    ensures Inv(t)
  {
  }

  lemma {:induction false} StepKeeps(s: Db, e: Event)
    requires Inv(s)
    ensures Inv(Step(s, e))
  {
    match e
    case Insert(user, batch) => InsertAllKeeps(s, user, batch);
    case Upload(user, batch) =>
      var m := InsertAll(s, user, batch);
      InsertAllKeeps(s, user, batch);
      SameRowsKeep(m, Recounted(m, user));
    case Begin(tx, user) => BeginKeeps(s, tx, user);
    case Mark(tx) => MarkKeeps(s, tx);
    case Commit(tx) =>
      if tx in s.fetches {
        CommitKeeps(s, tx);
      }
    case _ => SameRowsKeep(s, Step(s, e));
  }

  lemma {:induction false} RunKeeps(es: seq<Event>)
    ensures Inv(Run(EMPTY, es))
  {
    if es != [] {
      RunKeeps(es[..|es| - 1]);
      StepKeeps(Run(EMPTY, es[..|es| - 1]), es[|es| - 1]);
    }
  }

  /**
   Over every interleaving of fetches with inserts, recounts and upserts, no two
   committed fetches hand out the same key of a user, and the consumed rows are
   exactly the rows of the committed fetches.
   */
  lemma {:induction false} NeverHandedTwice(es: seq<Event>)
    ensures var s := Run(EMPTY, es);
            && (forall i, j :: 0 <= i < j < |s.handed| ==>
                  (s.handed[i].userId, s.handed[i].keyId) != (s.handed[j].userId, s.handed[j].keyId))
            && (set r | r in s.opks && s.opks[r].consumed) == (set i | 0 <= i < |s.handed| :: s.handed[i].row)
  {
    RunKeeps(es);
    var s := Run(EMPTY, es);
    forall i, j | 0 <= i < j < |s.handed|
      ensures (s.handed[i].userId, s.handed[i].keyId) != (s.handed[j].userId, s.handed[j].keyId)
    {
      assert s.handed[i].row != s.handed[j].row;
    }
  }

  /** A row keeps its content, and stays consumed once consumed. */
  ghost predicate RowKept(a: Db, b: Db, r: nat)
    requires r in a.opks
  {
    && r in b.opks
    && b.opks[r].(consumed := a.opks[r].consumed) == a.opks[r]
    && (a.opks[r].consumed ==> b.opks[r].consumed)
  }

  lemma InsertKeepsRow(s: Db, user: Uuid, batch: seq<OneTimePrekey>, r: nat)
    requires Inv(s) && r in s.opks
    ensures var t := InsertAll(s, user, batch); r in t.opks && t.opks[r] == s.opks[r]
  {
    InsertAllKeeps(s, user, batch);
  }

  lemma SameOpks(s: Db, t: Db, r: nat)
    requires r in s.opks && t.opks == s.opks
    ensures RowKept(s, t, r)
  {
  }

  lemma CommitKeepsRow(s: Db, tx: nat, r: nat)
    requires r in s.opks && tx in s.fetches
    ensures RowKept(s, Committed(s, tx), r)
  {
  }

  lemma {:induction false} StepKeepsRow(s: Db, e: Event, r: nat)
    requires Inv(s) && r in s.opks
    ensures RowKept(s, Step(s, e), r)
  {
    match e
    case Insert(user, batch) => InsertKeepsRow(s, user, batch, r);
    case Upload(user, batch) => InsertKeepsRow(s, user, batch, r);
    case Commit(tx) =>
      if tx in s.fetches {
        CommitKeepsRow(s, tx, r);
      }
    case _ => SameOpks(s, Step(s, e), r);
  }

  /** Uploading an id again never brings a key back, whatever else runs in between. */
  lemma {:induction false} RowsPermanent(s: Db, es: seq<Event>, r: nat)
    requires Inv(s) && r in s.opks
    ensures Inv(Run(s, es))
    ensures RowKept(s, Run(s, es), r)
  {
    if es != [] {
      var n := |es| - 1;
      RowsPermanent(s, es[..n], r);
      StepKeepsRow(Run(s, es[..n]), es[n], r);
      StepKeeps(Run(s, es[..n]), es[n]);
    }
  }

  /**
   A fetch takes a key whenever the user has a free key that no other fetch holds,
   and takes the lowest one.
   */
  lemma {:induction false} BeginTakesLowest(s: Db, tx: nat, user: Uuid)
    requires Inv(s) && tx !in s.fetches
    ensures var f := Step(s, Begin(tx, user)).fetches[tx];
            && (f.row.Some? <==> exists r :: r in Free(s.opks, user) && forall t :: t in s.fetches ==> !Holds(s.fetches[t], r))
            && (f.row.Some? ==> f.row.value in Free(s.opks, user))
            && (f.row.Some? ==> forall r :: r in Free(s.opks, user) && r < f.row.value ==>
                  exists t :: t in s.fetches && Holds(s.fetches[t], r))
  {
    var free := Available(s, user);
    if r :| r in Free(s.opks, user) && forall t :: t in s.fetches ==> !Holds(s.fetches[t], r) {
      assert r in free;
    }
    if free != {} {
      var m := Least(free);
      forall r | r in Free(s.opks, user) && r < m ensures exists t :: t in s.fetches && Holds(s.fetches[t], r) {
        assert r !in free;
      }
    }
  }

  /** A commit hands out exactly a marked key, and ends every fetch but one that has locked a key and not marked it. */
  lemma {:induction false} CommitMeaning(s: Db, tx: nat)
    requires Inv(s) && tx in s.fetches
    ensures var t, f := Step(s, Commit(tx)), s.fetches[tx];
            if f.Locked? && f.row.Some? then t == s
            else && t.fetches == s.fetches - {tx}
                 && t.handed == s.handed + (if f.Marked? then [Handed(f.userId, s.opks[f.taken].keyId, f.taken)] else [])
                 && (f.Locked? ==> t == s.(fetches := t.fetches))
  {
    if s.fetches[tx].Marked? {
      assert Holds(s.fetches[tx], s.fetches[tx].taken);
    }
  }

  /** An abort gives its key back: the next fetch can take it, and nothing else has changed. */
  lemma {:induction false} AbortReturnsKey(s: Db, tx: nat, r: nat)
    requires Inv(s) && tx in s.fetches && Holds(s.fetches[tx], r)
    ensures var t := Step(s, Abort(tx));
            t == s.(fetches := s.fetches - {tx}) && r in Available(t, s.fetches[tx].userId)
  {
  }

  // ---- Where stored and returned keys come from ---------------------------------------------------

  /** An upsert stores the given keys, for a new user and in place of old ones, and never touches the count. */
  lemma {:induction false} UpsertStores(s: Db, user: Uuid, identity: string, signed: SignedPrekey)
    ensures var t := Step(s, Upsert(user, identity, signed));
            if KeyRowLocked(s.fetches, user) then t == s
            else && t.keys.Keys == s.keys.Keys + {user}
                 && t.keys[user].identityKey == identity && t.keys[user].signedPrekey == signed
                 && t.keys[user].prekeyCount == (if user in s.keys then s.keys[user].prekeyCount else 0)
                 && (forall u :: u in s.keys && u != user ==> t.keys[u] == s.keys[u])
                 && t == s.(keys := t.keys)
  {
  }

  /** The keys of the user's last upsert that did not have to wait. */
  function LastUpsert(es: seq<Event>, user: Uuid): Option<(string, SignedPrekey)> {
    if es == [] then None else
      var n := |es| - 1;
      var before := LastUpsert(es[..n], user);
      match es[n]
      case Upsert(u, identity, signed) =>
        if u == user && !KeyRowLocked(Run(EMPTY, es[..n]).fetches, u) then Some((identity, signed)) else before
      case _ => before
  }

  ghost predicate StoredAs(s: Db, user: Uuid, k: Option<(string, SignedPrekey)>) {
    if k.None? then user !in s.keys
    else user in s.keys && s.keys[user].identityKey == k.value.0 && s.keys[user].signedPrekey == k.value.1
  }

  lemma {:induction false} InsertKeepsKeys(s: Db, user: Uuid, batch: seq<OneTimePrekey>)
    ensures InsertAll(s, user, batch).keys == s.keys
  {
    if batch != [] {
      InsertKeepsKeys(s, user, batch[..|batch| - 1]);
    }
  }

  /** Only an upsert of the user changes which keys are stored for them. */
  lemma {:induction false} OtherStepsKeepKeys(s: Db, e: Event, user: Uuid, k: Option<(string, SignedPrekey)>)
    requires StoredAs(s, user, k) && !(e.Upsert? && e.userId == user)
    ensures StoredAs(Step(s, e), user, k)
  {
    match e
    case Insert(u, batch) => InsertKeepsKeys(s, u, batch);
    case Upload(u, batch) => InsertKeepsKeys(s, u, batch);
    case _ =>
  }

  /** Over all runs the stored identity key and signed prekey are those of the user's last upsert, and a fetch returns them. */
  lemma {:induction false} StoredKeysAreLastUpsert(es: seq<Event>, user: Uuid)
    ensures StoredAs(Run(EMPTY, es), user, LastUpsert(es, user))
  {
    if es != [] {
      var n := |es| - 1;
      StoredKeysAreLastUpsert(es[..n], user);
      if es[n].Upsert? && es[n].userId == user {
        UpsertStores(Run(EMPTY, es[..n]), user, es[n].identityKey, es[n].signedPrekey);
      } else {
        OtherStepsKeepKeys(Run(EMPTY, es[..n]), es[n], user, LastUpsert(es[..n], user));
      }
    }
  }

  /** The run uploaded this key for this user. */
  ghost predicate UploadedAt(e: Event, user: Uuid, k: OneTimePrekey) {
    (e.Insert? && e.userId == user && k in e.batch) || (e.Upload? && e.userId == user && k in e.batch)
  }

  ghost predicate Uploaded(es: seq<Event>, user: Uuid, k: OneTimePrekey) {
    exists i :: 0 <= i < |es| && UploadedAt(es[i], user, k)
  }

  lemma {:induction false} InsertedRow(s: Db, user: Uuid, batch: seq<OneTimePrekey>, r: nat)
    requires Inv(s) && r in InsertAll(s, user, batch).opks && r !in s.opks
    ensures var row := InsertAll(s, user, batch).opks[r];
            row.userId == user && OneTimePrekey(row.keyId, row.publicKey) in batch && !row.consumed
  {
    var n := |batch| - 1;
    var m := InsertAll(s, user, batch[..n]);
    InsertAllKeeps(s, user, batch[..n]);
    InsertOneKeeps(m, user, batch[n]);
    if r in m.opks {
      InsertedRow(s, user, batch[..n], r);
    }
  }

  lemma {:induction false} RowStep(s: Db, e: Event, r: nat)
    requires Inv(s) && r in Step(s, e).opks && r !in s.opks
    ensures var row := Step(s, e).opks[r]; UploadedAt(e, row.userId, OneTimePrekey(row.keyId, row.publicKey))
  {
    match e
    case Insert(user, batch) => InsertedRow(s, user, batch, r);
    case Upload(user, batch) => InsertedRow(s, user, batch, r);
    case _ =>
  }

  /** Over all runs every stored one-time prekey, and so every one handed out, is a key that its user uploaded under that id. */
  lemma {:induction false} RowsComeFromUploads(es: seq<Event>, r: nat)
    requires r in Run(EMPTY, es).opks
    ensures var row := Run(EMPTY, es).opks[r]; Uploaded(es, row.userId, OneTimePrekey(row.keyId, row.publicKey))
  {
    var n := |es| - 1;
    var s := Run(EMPTY, es[..n]);
    RunKeeps(es[..n]);
    var row := Run(EMPTY, es).opks[r];
    if r in s.opks {
      StepKeepsRow(s, es[n], r);
      RowsComeFromUploads(es[..n], r);
      var i :| 0 <= i < n && UploadedAt(es[..n][i], row.userId, OneTimePrekey(row.keyId, row.publicKey));
      assert UploadedAt(es[i], row.userId, OneTimePrekey(row.keyId, row.publicKey));
    } else {
      RowStep(s, es[n], r);
      assert UploadedAt(es[n], row.userId, OneTimePrekey(row.keyId, row.publicKey));
    }
  }

  lemma {:induction false} NotYetThere(s: Db, user: Uuid, batch: seq<OneTimePrekey>, id: int)
    requires Inv(s) && !HasKey(s.opks, user, id) && forall j :: 0 <= j < |batch| ==> batch[j].id != id
    ensures !HasKey(InsertAll(s, user, batch).opks, user, id)
  {
    if batch != [] {
      NotYetThere(s, user, batch[..|batch| - 1], id);
    }
  }

  lemma {:induction false} SequenceAdvances(s: Db, user: Uuid, batch: seq<OneTimePrekey>)
    ensures InsertAll(s, user, batch).nextId == s.nextId + |batch|
  {
    if batch != [] {
      SequenceAdvances(s, user, batch[..|batch| - 1]);
    }
  }

  lemma NewRow(s: Db, user: Uuid, k: OneTimePrekey)
    requires !HasKey(s.opks, user, k.id)
    ensures var t := InsertOne(s, user, k);
            s.nextId in t.opks && t.opks[s.nextId] == OpkRow(user, k.id, k.key, false)
  {
  }

  /** The first key uploaded under a new id is stored as a free row, and rows are numbered in the order of the batch. */
  lemma {:induction false} FirstKeyIsStored(s: Db, user: Uuid, batch: seq<OneTimePrekey>, i: nat)
    requires Inv(s) && i < |batch| && !HasKey(s.opks, user, batch[i].id)
    requires forall j :: 0 <= j < i ==> batch[j].id != batch[i].id
    ensures var t := InsertAll(s, user, batch);
            s.nextId + i in t.opks && t.opks[s.nextId + i] == OpkRow(user, batch[i].id, batch[i].key, false)
  {
    var n := |batch| - 1;
    var m := InsertAll(s, user, batch[..n]);
    InsertAllKeeps(s, user, batch[..n]);
    if i < n {
      FirstKeyIsStored(s, user, batch[..n], i);
      InsertOneKeeps(m, user, batch[n]);
    } else {
      SequenceAdvances(s, user, batch[..n]);
      NotYetThere(s, user, batch[..n], batch[n].id);
      NewRow(m, user, batch[n]);
    }
  }

  // ---- The cached counter -----------------------------------------------------------------

  /** The user's stored counter promises no more keys than there are. */
  ghost predicate Bounded(s: Db, u: Uuid) {
    u in s.keys ==> 0 <= s.keys[u].prekeyCount <= |Free(s.opks, u)|
  }

  ghost predicate Exact(s: Db, u: Uuid) {
    u in s.keys && s.keys[u].prekeyCount == |Free(s.opks, u)|
  }

  ghost predicate PendingAt(s: Db, t: nat)
    requires t in s.fetches
  {
    Counting(s.fetches[t]) ==>
      var u := s.fetches[t].userId;
      u in s.keys && s.fetches[t].newCount.value == Max(s.keys[u].prekeyCount - 1, 0)
  }

  /** A marked fetch of a user with a key row carries the decrement of the current counter, and is the only one. */
  ghost predicate PendingOk(s: Db) {
    && (forall t :: t in s.fetches ==> PendingAt(s, t))
    && (forall t, u :: t in s.fetches && u in s.fetches && SameCounter(s.fetches[t], s.fetches[u]) ==> t == u)
  }

  /** A write to an unlocked key row disturbs no pending decrement. */
  lemma UnlockedWriteKeepsPending(s: Db, t: Db, user: Uuid)
    requires PendingOk(s) && t.fetches == s.fetches && !KeyRowLocked(s.fetches, user)
    requires forall u :: u in s.keys && u != user ==> u in t.keys && t.keys[u] == s.keys[u]
    ensures PendingOk(t)
  {
    forall q | q in t.fetches ensures PendingAt(t, q) {
      assert PendingAt(s, q);
    }
  }

  lemma UpsertPending(s: Db, e: Event)
    requires PendingOk(s) && e.Upsert?
    ensures PendingOk(Step(s, e))
  {
    if !KeyRowLocked(s.fetches, e.userId) {
      UnlockedWriteKeepsPending(s, Step(s, e), e.userId);
    }
  }

  lemma WritePending(s: Db, task: nat)
    requires PendingOk(s)
    ensures PendingOk(Step(s, WriteCount(task)))
  {
    if task in s.recounts && !KeyRowLocked(s.fetches, s.recounts[task].userId) {
      UnlockedWriteKeepsPending(s, Step(s, WriteCount(task)), s.recounts[task].userId);
    }
  }

  lemma UploadPending(s: Db, user: Uuid, batch: seq<OneTimePrekey>)
    requires Inv(s) && PendingOk(s)
    ensures PendingOk(Step(s, Upload(user, batch)))
  {
    InsertAllKeeps(s, user, batch);
    if !KeyRowLocked(s.fetches, user) {
      UnlockedWriteKeepsPending(s, Step(s, Upload(user, batch)), user);
    }
  }

  lemma SameTablesPending(s: Db, t: Db)
    requires PendingOk(s) && t.keys == s.keys && t.fetches == s.fetches
    ensures PendingOk(t)
  {
    forall q | q in t.fetches ensures PendingAt(t, q) {
      assert PendingAt(s, q);
    }
  }

  /** A fetch that is not marked, or goes away, leaves the pending decrements as they are. */
  lemma FewerFetchesPending(s: Db, t: Db, tx: nat)
    requires PendingOk(s) && t.keys == s.keys
    requires forall q :: q in t.fetches && q != tx ==> q in s.fetches && t.fetches[q] == s.fetches[q]
    requires tx in t.fetches ==> t.fetches[tx].Locked?
    ensures PendingOk(t)
  {
    forall q | q in t.fetches ensures PendingAt(t, q) {
      if q != tx {
        assert PendingAt(s, q);
      }
    }
  }

  lemma MarkPending(s: Db, tx: nat)
    requires PendingOk(s)
    ensures PendingOk(Step(s, Mark(tx)))
  {
    var t := Step(s, Mark(tx));
    if t.fetches != s.fetches {
      assert t.keys == s.keys && forall q :: q in s.fetches && q != tx ==> t.fetches[q] == s.fetches[q];
      forall q | q in t.fetches ensures PendingAt(t, q) {
        if q != tx {
          assert PendingAt(s, q);
        }
      }
    }
  }

  /** The one pending decrement of a user is gone after its commit. */
  lemma CommitPending(s: Db, tx: nat)
    requires PendingOk(s) && tx in s.fetches
    ensures PendingOk(Committed(s, tx))
  {
    var t, f := Committed(s, tx), s.fetches[tx];
    forall q | q in t.fetches ensures PendingAt(t, q) {
      assert PendingAt(s, q);
      if Counting(f) && Counting(s.fetches[q]) {
        assert q != tx ==> !SameCounter(s.fetches[q], f);
      }
    }
  }

  lemma {:induction false} StepPending(s: Db, e: Event)
    requires Inv(s) && PendingOk(s)
    ensures PendingOk(Step(s, e))
  {
    match e
    case Upsert(_, _, _) => UpsertPending(s, e);
    case Insert(user, batch) => InsertAllKeeps(s, user, batch); SameTablesPending(s, InsertAll(s, user, batch));
    case CountFree(_, _) => SameTablesPending(s, Step(s, e));
    case WriteCount(task) => WritePending(s, task);
    case Upload(user, batch) => UploadPending(s, user, batch);
    case Begin(tx, _) =>
      if tx !in s.fetches {
        FewerFetchesPending(s, Step(s, e), tx);
      }
    case Mark(tx) => MarkPending(s, tx);
    case Commit(tx) =>
      if tx in s.fetches {
        CommitPending(s, tx);
      }
    case Abort(tx) => FewerFetchesPending(s, Step(s, e), tx);
  }

  /** Handing out a row takes it out of its owner's free rows and out of nobody else's. */
  lemma {:induction false} CommitFrees(s: Db, tx: nat, u: Uuid)
    requires Inv(s) && tx in s.fetches && s.fetches[tx].Marked?
    ensures var f := s.fetches[tx];
            && f.taken in Free(s.opks, f.userId)
            && Free(Committed(s, tx).opks, u) == (if u == f.userId then Free(s.opks, u) - {f.taken} else Free(s.opks, u))
            && |Free(Committed(s, tx).opks, u)| == |Free(s.opks, u)| - (if u == f.userId then 1 else 0)
  {
    assert Holds(s.fetches[tx], s.fetches[tx].taken);
  }

  /** Inserting keys adds free rows to the uploader only. */
  lemma {:induction false} InsertFrees(s: Db, user: Uuid, batch: seq<OneTimePrekey>, u: Uuid)
    requires Inv(s)
    ensures Free(s.opks, u) <= Free(InsertAll(s, user, batch).opks, u)
    ensures u != user ==> Free(InsertAll(s, user, batch).opks, u) == Free(s.opks, u)
    ensures |Free(s.opks, u)| <= |Free(InsertAll(s, user, batch).opks, u)|
  {
    InsertAllKeeps(s, user, batch);
    SubsetSize(Free(s.opks, u), Free(InsertAll(s, user, batch).opks, u));
  }

  // ---- Exactly which steps break the bound -------------------------------------------------------

  /** A commit of a key of `u` whose mark found no key row. */
  ghost predicate UncountedCommit(s: Db, e: Event, u: Uuid) {
    && e.Commit? && e.tx in s.fetches
    && s.fetches[e.tx].Marked? && s.fetches[e.tx].userId == u && s.fetches[e.tx].newCount.None?
  }

  /** A recount of `u` that now gets the key row. */
  ghost predicate WritesCount(s: Db, e: Event, u: Uuid) {
    && e.WriteCount? && e.task in s.recounts && s.recounts[e.task].userId == u
    && u in s.keys && !KeyRowLocked(s.fetches, u)
  }

  ghost predicate Breaks(s: Db, e: Event, u: Uuid) {
    || (UncountedCommit(s, e, u) && u in s.keys && s.keys[u].prekeyCount == |Free(s.opks, u)|)
    || (WritesCount(s, e, u) && s.recounts[e.task].found > |Free(s.opks, u)|)
  }

  lemma {:induction false} CommitBoundIff(s: Db, tx: nat, u: Uuid)
    requires Inv(s) && PendingOk(s) && Bounded(s, u)
    ensures Bounded(Step(s, Commit(tx)), u) <==> !Breaks(s, Commit(tx), u)
  {
    if tx in s.fetches && s.fetches[tx].Marked? {
      CommitFrees(s, tx, u);
      assert PendingAt(s, tx);
    }
  }

  lemma {:induction false} InsertBound(s: Db, user: Uuid, batch: seq<OneTimePrekey>, u: Uuid)
    requires Inv(s) && Bounded(s, u)
    ensures Bounded(InsertAll(s, user, batch), u) && Bounded(Recounted(InsertAll(s, user, batch), user), u)
  {
    InsertAllKeeps(s, user, batch);
    InsertFrees(s, user, batch, u);
  }

  lemma {:induction false} UploadBound(s: Db, user: Uuid, batch: seq<OneTimePrekey>, u: Uuid)
    requires Inv(s) && Bounded(s, u)
    ensures Bounded(Step(s, Upload(user, batch)), u)
  {
    InsertBound(s, user, batch, u);
  }

  lemma {:induction false} WriteBoundIff(s: Db, task: nat, u: Uuid)
    requires Bounded(s, u)
    ensures Bounded(Step(s, WriteCount(task)), u) <==> !Breaks(s, WriteCount(task), u)
  {
  }

  /** A step that touches neither the user's key row nor the prekeys. */
  lemma SameRowsBounded(s: Db, t: Db, u: Uuid)
    requires t.keys == s.keys && t.opks == s.opks
    ensures Bounded(t, u) <==> Bounded(s, u)
  {
  }

  /**
   Exactly which steps break the bound of a user, whatever the others do: committing a fetch
   that marked before the key row existed when the count has no slack, and writing a count
   that is by now too high.
   */
  lemma {:induction false} StepKeepsBoundIff(s: Db, e: Event, u: Uuid)
    requires Inv(s) && PendingOk(s) && Bounded(s, u)
    ensures Bounded(Step(s, e), u) <==> !Breaks(s, e, u)
  {
    match e
    case Upsert(_, _, _) =>
    case Insert(user, batch) => InsertBound(s, user, batch, u);
    case WriteCount(task) => WriteBoundIff(s, task, u);
    case Upload(user, batch) => UploadBound(s, user, batch, u);
    case Commit(tx) => CommitBoundIff(s, tx, u);
    case _ => SameRowsBounded(s, Step(s, e), u);
  }

  lemma {:induction false} RunPending(es: seq<Event>)
    ensures Inv(Run(EMPTY, es)) && PendingOk(Run(EMPTY, es))
  {
    RunKeeps(es);
    if es != [] {
      RunPending(es[..|es| - 1]);
      StepPending(Run(EMPTY, es[..|es| - 1]), es[|es| - 1]);
    }
  }

  ghost predicate BreaksAt(es: seq<Event>, n: nat, u: Uuid)
    requires n < |es|
  {
    Breaks(Run(EMPTY, es[..n]), es[n], u)
  }

  /** Over all runs, the stored count of a user stays bounded throughout exactly when no step breaks it. */
  lemma {:induction false} BoundedThroughoutIff(es: seq<Event>, u: Uuid)
    ensures (forall n: nat :: n <= |es| ==> Bounded(Run(EMPTY, es[..n]), u)) <==>
            (forall n: nat :: n < |es| ==> !BreaksAt(es, n, u))
  {
    if forall n: nat :: n < |es| ==> !BreaksAt(es, n, u) {
      forall n: nat | n <= |es| ensures Bounded(Run(EMPTY, es[..n]), u) {
        BoundedUpTo(es, n, u);
      }
    }
    if forall n: nat :: n <= |es| ==> Bounded(Run(EMPTY, es[..n]), u) {
      forall n: nat | n < |es| ensures !BreaksAt(es, n, u) {
        assert Bounded(Run(EMPTY, es[..n + 1]), u);
        StepAt(es, n);
        RunPending(es[..n]);
        StepKeepsBoundIff(Run(EMPTY, es[..n]), es[n], u);
      }
    }
  }

  lemma StepAt(es: seq<Event>, n: nat)
    requires n < |es|
    ensures Run(EMPTY, es[..n + 1]) == Step(Run(EMPTY, es[..n]), es[n])
  {
    assert es[..n + 1][..n] == es[..n];
  }

  lemma {:induction false} BoundedUpTo(es: seq<Event>, n: nat, u: Uuid)
    requires n <= |es| && forall m: nat :: m < |es| ==> !BreaksAt(es, m, u)
    ensures Bounded(Run(EMPTY, es[..n]), u)
  {
    if n > 0 {
      BoundedUpTo(es, n - 1, u);
      StepAt(es, n - 1);
      RunPending(es[..n - 1]);
      assert !BreaksAt(es, n - 1, u);
      StepKeepsBoundIff(Run(EMPTY, es[..n - 1]), es[n - 1], u);
    }
  }

  // ---- Conditions on the fetches and recounts of one user's keys ------------------------------------------

  ghost predicate MarksCounted(s: Db, u: Uuid) {
    forall t :: t in s.fetches && s.fetches[t].Marked? && s.fetches[t].userId == u ==> s.fetches[t].newCount.Some?
  }

  /** No running recount of the user has found more than there is. */
  ghost predicate CountsFresh(s: Db, u: Uuid) {
    forall t :: t in s.recounts && s.recounts[t].userId == u ==> s.recounts[t].found <= |Free(s.opks, u)|
  }

  ghost predicate CountedFor(s: Db, u: Uuid) {
    Bounded(s, u) && MarksCounted(s, u) && CountsFresh(s, u)
  }

  /** Fetches of the user's keys find a key row when they mark, and none commits while a recount of the user waits. */
  ghost predicate CarefulStep(s: Db, e: Event, u: Uuid) {
    match e
    case Mark(tx) => tx in s.fetches && s.fetches[tx].userId == u ==> u in s.keys
    case Commit(tx) =>
      tx in s.fetches && s.fetches[tx].Marked? && s.fetches[tx].userId == u ==>
        forall t :: t in s.recounts ==> s.recounts[t].userId != u
    case _ => true
  }

  lemma {:induction false} StepMarksCounted(s: Db, e: Event, u: Uuid)
    requires MarksCounted(s, u) && CarefulStep(s, e, u)
    ensures MarksCounted(Step(s, e), u)
  {
    match e
    case Insert(user, batch) => InsertSameFetches(s, user, batch);
    case Upload(user, batch) => InsertSameFetches(s, user, batch);
    case _ =>
  }

  lemma {:induction false} InsertSameFetches(s: Db, user: Uuid, batch: seq<OneTimePrekey>)
    ensures var t := InsertAll(s, user, batch);
            t.fetches == s.fetches && t.recounts == s.recounts && t.keys == s.keys && t.handed == s.handed
  {
    if batch != [] {
      InsertSameFetches(s, user, batch[..|batch| - 1]);
    }
  }

  lemma MoreFreeFresh(s: Db, t: Db, u: Uuid)
    requires CountsFresh(s, u) && |Free(s.opks, u)| <= |Free(t.opks, u)|
    requires forall q :: q in t.recounts ==> q in s.recounts && t.recounts[q] == s.recounts[q]
    ensures CountsFresh(t, u)
  {
  }

  lemma {:induction false} StepCountsFresh(s: Db, e: Event, u: Uuid)
    requires Inv(s) && CountsFresh(s, u) && CarefulStep(s, e, u)
    ensures CountsFresh(Step(s, e), u)
  {
    match e
    case Insert(user, batch) =>
      InsertSameFetches(s, user, batch);
      InsertFrees(s, user, batch, u);
      MoreFreeFresh(s, Step(s, e), u);
    case Upload(user, batch) =>
      InsertSameFetches(s, user, batch);
      InsertFrees(s, user, batch, u);
      MoreFreeFresh(s, Step(s, e), u);
    case CountFree(_, _) =>
    case Commit(tx) =>
      if tx in s.fetches && s.fetches[tx].Marked? {
        CommitFrees(s, tx, u);
      }
    case _ => MoreFreeFresh(s, Step(s, e), u);
  }

  lemma {:induction false} CarefulDoesNotBreak(s: Db, e: Event, u: Uuid)
    requires CountedFor(s, u) && CarefulStep(s, e, u)
    ensures !Breaks(s, e, u)
  {
  }

  /** Whatever happens to the keys of other users, a careful step keeps the counter of this user. */
  lemma {:induction false} StepCountedFor(s: Db, e: Event, u: Uuid)
    requires Inv(s) && PendingOk(s) && CountedFor(s, u) && CarefulStep(s, e, u)
    ensures CountedFor(Step(s, e), u)
  {
    CarefulDoesNotBreak(s, e, u);
    StepKeepsBoundIff(s, e, u);
    StepMarksCounted(s, e, u);
    StepCountsFresh(s, e, u);
  }

  ghost predicate CarefulAt(es: seq<Event>, n: nat, u: Uuid)
    requires n < |es|
  {
    CarefulStep(Run(EMPTY, es[..n]), es[n], u)
  }

  ghost predicate Careful(es: seq<Event>, u: Uuid) {
    forall n: nat :: n < |es| ==> CarefulAt(es, n, u)
  }

  lemma {:induction false} CarefulPrefix(es: seq<Event>, u: Uuid)
    requires es != [] && Careful(es, u)
    ensures Careful(es[..|es| - 1], u)
    ensures CarefulStep(Run(EMPTY, es[..|es| - 1]), es[|es| - 1], u)
  {
    var m := |es| - 1;
    assert CarefulAt(es, m, u);
    forall n: nat | n < m ensures CarefulAt(es[..m], n, u) {
      assert CarefulAt(es, n, u);
      assert es[..m][..n] == es[..n];
    }
  }

  /** Over all runs that are careful about one user's keys, that user's stored count never exceeds their unconsumed keys. */
  lemma {:induction false} CountNeverExceeds(es: seq<Event>, u: Uuid)
    requires Careful(es, u)
    ensures CountedFor(Run(EMPTY, es), u)
  {
    if es != [] {
      CarefulPrefix(es, u);
      CountNeverExceeds(es[..|es| - 1], u);
      RunPending(es[..|es| - 1]);
      StepCountedFor(Run(EMPTY, es[..|es| - 1]), es[|es| - 1], u);
    }
  }

  // ---- When the count is exact --------------------------------------------------------------------

  /** Steps after which the count is exact, whatever it was. */
  ghost predicate Syncs(s: Db, e: Event, u: Uuid) {
    || (e.Upload? && e.userId == u && u in s.keys && !KeyRowLocked(s.fetches, u))
    || (WritesCount(s, e, u) && s.recounts[e.task].found == |Free(s.opks, u)|)
  }

  /** Steps that make an exact count wrong. */
  ghost predicate Unsyncs(s: Db, e: Event, u: Uuid) {
    || UncountedCommit(s, e, u)
    || (WritesCount(s, e, u) && s.recounts[e.task].found != |Free(s.opks, u)|)
    || (e.Insert? && |Free(InsertAll(s, e.userId, e.batch).opks, u)| != |Free(s.opks, u)|)
  }

  lemma {:induction false} CommitExactIff(s: Db, tx: nat, u: Uuid)
    requires Inv(s) && PendingOk(s) && Exact(s, u)
    ensures Exact(Step(s, Commit(tx)), u) <==> !UncountedCommit(s, Commit(tx), u)
  {
    if tx in s.fetches && s.fetches[tx].Marked? {
      CommitFrees(s, tx, u);
      assert PendingAt(s, tx);
    }
  }

  lemma {:induction false} UploadExact(s: Db, user: Uuid, batch: seq<OneTimePrekey>, u: Uuid)
    requires Inv(s) && (Exact(s, u) || Syncs(s, Upload(user, batch), u))
    ensures Exact(Step(s, Upload(user, batch)), u)
  {
    InsertSameFetches(s, user, batch);
    InsertFrees(s, user, batch, u);
  }

  lemma SameRowsExact(s: Db, t: Db, u: Uuid)
    requires t.keys == s.keys && t.opks == s.opks
    ensures Exact(t, u) <==> Exact(s, u)
  {
  }

  /** Exactly which steps keep an exact count exact. */
  lemma {:induction false} StepKeepsExactIff(s: Db, e: Event, u: Uuid)
    requires Inv(s) && PendingOk(s) && Exact(s, u)
    ensures Exact(Step(s, e), u) <==> !Unsyncs(s, e, u)
  {
    match e
    case Upsert(_, _, _) =>
    case Insert(user, batch) => InsertSameFetches(s, user, batch);
    case WriteCount(_) =>
    case Upload(user, batch) => UploadExact(s, user, batch, u);
    case Commit(tx) => CommitExactIff(s, tx, u);
    case _ => SameRowsExact(s, Step(s, e), u);
  }

  lemma {:induction false} SyncsExact(s: Db, e: Event, u: Uuid)
    requires Inv(s) && Syncs(s, e, u)
    ensures Exact(Step(s, e), u)
  {
    if e.Upload? {
      UploadExact(s, e.userId, e.batch, u);
    }
  }

  /** The count was made exact at some step of the run, and no later step made it wrong. */
  ghost predicate Synced(es: seq<Event>, u: Uuid) {
    es != [] &&
    var s := Run(EMPTY, es[..|es| - 1]);
    Syncs(s, es[|es| - 1], u) || (Synced(es[..|es| - 1], u) && !Unsyncs(s, es[|es| - 1], u))
  }

  /** From the first upload after the key row exists the counter equals the number of unconsumed keys. */
  lemma {:induction false} CountExactWhenSynced(es: seq<Event>, u: Uuid)
    requires Synced(es, u)
    ensures Exact(Run(EMPTY, es), u)
  {
    var n := |es| - 1;
    var s := Run(EMPTY, es[..n]);
    RunPending(es[..n]);
    if Syncs(s, es[n], u) {
      SyncsExact(s, es[n], u);
    } else {
      CountExactWhenSynced(es[..n], u);
      StepKeepsExactIff(s, es[n], u);
    }
  }

  // ---- Runs that break it ------------------------------------------------------------------------

  lemma {:induction false} RunSnoc(s: Db, es: seq<Event>, e: Event)
    ensures Run(s, es + [e]) == Step(Run(s, es), e)
  {
    assert (es + [e])[..|es|] == es;
  }

  lemma {:induction false} RunTwo(s: Db, a: Event, b: Event)
    ensures Run(s, [a, b]) == Step(Step(s, a), b)
  {
    RunSnoc(s, [], a);
    RunSnoc(s, [a], b);
    assert [] + [a] == [a] && [a] + [b] == [a, b];
  }

  lemma {:induction false} RunAppend(s: Db, es: seq<Event>, fs: seq<Event>)
    ensures Run(s, es + fs) == Run(Run(s, es), fs)
  {
    if fs == [] {
      assert es + fs == es;
    } else {
      var n := |fs| - 1;
      RunAppend(s, es, fs[..n]);
      assert (es + fs)[..|es + fs| - 1] == es + fs[..n];
    }
  }

  lemma {:induction false} InsertSingle(s: Db, user: Uuid, k: OneTimePrekey)
    ensures InsertAll(s, user, [k]) == InsertOne(s, user, k)
  {
    assert [k][..0] == [];
  }

  /** The pool with one free key of user 7 that a fetch has taken. */
  function OneTaken(k: OneTimePrekey, keys: map<Uuid, KeyRow>, f: Fetch): Db {
    Db(map[1 := OpkRow(7, k.id, k.key, false)], 2, keys, map[0 := f], map[], [])
  }

  lemma {:induction false} TakeOnly(s: Db, k: OneTimePrekey)
    requires s.opks == map[] && s.nextId == 1 && s.fetches == map[] && s.recounts == map[] && s.handed == []
    requires s.keys == map[] || s.keys.Keys == {7}
    ensures var m := Step(s, Upload(7, [k]));
            && Step(m, Begin(0, 7)) == OneTaken(k, m.keys, Locked(7, Some(1)))
            && m.keys == if s.keys == map[] then map[] else map[7 := s.keys[7].(prekeyCount := 1)]
  {
    InsertSingle(s, 7, k);
    var m := Step(s, Upload(7, [k]));
    assert !HasKey(s.opks, 7, k.id);
    assert InsertOne(s, 7, k).opks == map[1 := OpkRow(7, k.id, k.key, false)];
    assert Free(m.opks, 7) == {1};
    assert Available(m, 7) == {1};
  }

  lemma {:induction false} MarkAndUpsert(k: OneTimePrekey, identity: string, signed: SignedPrekey)
    ensures var s1 := OneTaken(k, map[], Locked(7, Some(1)));
            Step(Step(s1, Mark(0)), Upsert(7, identity, signed)) ==
            OneTaken(k, map[7 := KeyRow(identity, signed, 0)], Marked(7, 1, None))
  {
    var s1 := OneTaken(k, map[], Locked(7, Some(1)));
    assert Step(s1, Mark(0)) == OneTaken(k, map[], Marked(7, 1, None));
  }

  lemma {:induction false} CountAndWrite(k: OneTimePrekey, identity: string, signed: SignedPrekey)
    ensures var s2 := OneTaken(k, map[7 := KeyRow(identity, signed, 0)], Marked(7, 1, None));
            Step(Step(s2, CountFree(0, 7)), WriteCount(0)) ==
            OneTaken(k, map[7 := KeyRow(identity, signed, 1)], Marked(7, 1, None))
  {
    var s2 := OneTaken(k, map[7 := KeyRow(identity, signed, 0)], Marked(7, 1, None));
    assert Free(s2.opks, 7) == {1};
    var s3 := Step(s2, CountFree(0, 7));
    assert s3.recounts == map[0 := Recount(7, 1)];
    assert s3.recounts - {0} == map[];
  }

  lemma {:induction false} RunPair(es: seq<Event>, s: Db, a: Event, b: Event)
    requires Run(EMPTY, es) == s
    ensures Run(EMPTY, es + [a, b]) == Step(Step(s, a), b)
  {
    RunAppend(EMPTY, es, [a, b]);
    RunTwo(s, a, b);
  }

  lemma {:induction false} CommitLast(k: OneTimePrekey, row: KeyRow)
    ensures var t := Step(OneTaken(k, map[7 := row], Marked(7, 1, None)), Commit(0));
            t.keys == map[7 := row] && |Free(t.opks, 7)| == 0
  {
    assert Free(Step(OneTaken(k, map[7 := row], Marked(7, 1, None)), Commit(0)).opks, 7) == {};
  }

  /** A fetch that starts before the key row exists leaves the count at 1 with no key left. */
  lemma {:induction false} UncountedMarkExceeds(identity: string, signed: SignedPrekey, k: OneTimePrekey)
    ensures var es := [Upload(7, [k]), Begin(0, 7)] + [Mark(0), Upsert(7, identity, signed)]
                      + [CountFree(0, 7), WriteCount(0)] + [Commit(0)];
            var s := Run(EMPTY, es);
            7 in s.keys && s.keys[7].prekeyCount == 1 && |Free(s.opks, 7)| == 0
  {
    var es1 := [Upload(7, [k]), Begin(0, 7)];
    var es2 := es1 + [Mark(0), Upsert(7, identity, signed)];
    TakeOnly(EMPTY, k);
    RunTwo(EMPTY, Upload(7, [k]), Begin(0, 7));
    RunPair(es1, OneTaken(k, map[], Locked(7, Some(1))), Mark(0), Upsert(7, identity, signed));
    MarkAndUpsert(k, identity, signed);
    RunPair(es2, OneTaken(k, map[7 := KeyRow(identity, signed, 0)], Marked(7, 1, None)), CountFree(0, 7), WriteCount(0));
    CountAndWrite(k, identity, signed);
    RunSnoc(EMPTY, es2 + [CountFree(0, 7), WriteCount(0)], Commit(0));
    CommitLast(k, KeyRow(identity, signed, 1));
  }

  /**
   A recount whose snapshot lies between the mark and the commit of a fetch leaves a count
   that was exact one too high.
   */
  lemma {:induction false} StaleRecountExceeds(s: Db, tx: nat, task: nat, u: Uuid)
    requires Inv(s) && PendingOk(s) && Exact(s, u) && !KeyRowLocked(s.fetches, u)
    requires tx in s.fetches && s.fetches[tx].Locked? && s.fetches[tx].userId == u && s.fetches[tx].row.Some?
    requires task !in s.recounts
    ensures var t := Run(s, [Mark(tx), CountFree(task, u)] + [Commit(tx), WriteCount(task)]);
            u in t.keys && t.keys[u].prekeyCount == |Free(t.opks, u)| + 1
  {
    RunAppend(s, [Mark(tx), CountFree(task, u)], [Commit(tx), WriteCount(task)]);
    RunTwo(s, Mark(tx), CountFree(task, u));
    var counted := Step(Step(s, Mark(tx)), CountFree(task, u));
    MarkAndCount(s, tx, task, u);
    RunTwo(counted, Commit(tx), WriteCount(task));
    StepKeeps(s, Mark(tx));
    StepKeeps(Step(s, Mark(tx)), CountFree(task, u));
    CommitAndWrite(counted, tx, task, u);
  }

  lemma {:induction false} MarkAndCount(s: Db, tx: nat, task: nat, u: Uuid)
    requires u in s.keys && !KeyRowLocked(s.fetches, u) && task !in s.recounts
    requires tx in s.fetches && s.fetches[tx].Locked? && s.fetches[tx].userId == u && s.fetches[tx].row.Some?
    ensures var t := Step(Step(s, Mark(tx)), CountFree(task, u));
            && t.keys == s.keys && t.opks == s.opks
            && t.fetches == s.fetches[tx := MarkedFetch(s, u, s.fetches[tx].row.value)]
            && t.recounts == s.recounts[task := Recount(u, |Free(s.opks, u)|)]
  {
  }

  lemma {:induction false} CommitAndWrite(s: Db, tx: nat, task: nat, u: Uuid)
    requires Inv(s) && u in s.keys
    requires tx in s.fetches && Counting(s.fetches[tx]) && s.fetches[tx].userId == u
    requires forall q :: q in s.fetches && Counting(s.fetches[q]) && s.fetches[q].userId == u ==> q == tx
    requires task in s.recounts && s.recounts[task] == Recount(u, |Free(s.opks, u)|)
    ensures var t := Step(Step(s, Commit(tx)), WriteCount(task));
            u in t.keys && t.keys[u].prekeyCount == |Free(t.opks, u)| + 1
  {
    CommitFrees(s, tx, u);
    var m := Step(s, Commit(tx));
    assert m.fetches == s.fetches - {tx} && m.recounts == s.recounts;
    assert !KeyRowLocked(m.fetches, u);
  }

  /** Such a run from the empty tables. */
  lemma {:induction false} StaleRecountIsReachable(identity: string, signed: SignedPrekey, k: OneTimePrekey)
    ensures var es := [Upsert(7, identity, signed)] + [Upload(7, [k]), Begin(0, 7)]
                      + ([Mark(0), CountFree(0, 7)] + [Commit(0), WriteCount(0)]);
            var s := Run(EMPTY, es);
            7 in s.keys && s.keys[7].prekeyCount == |Free(s.opks, 7)| + 1
  {
    var es1 := [Upsert(7, identity, signed)];
    var es2 := es1 + [Upload(7, [k]), Begin(0, 7)];
    RunSnoc(EMPTY, [], Upsert(7, identity, signed));
    assert [] + es1 == es1;
    var s1 := EMPTY.(keys := map[7 := KeyRow(identity, signed, 0)]);
    assert Run(EMPTY, es1) == s1;
    RunAppend(EMPTY, es1, [Upload(7, [k]), Begin(0, 7)]);
    RunTwo(s1, Upload(7, [k]), Begin(0, 7));
    TakeOnly(s1, k);
    var s2 := OneTaken(k, map[7 := KeyRow(identity, signed, 1)], Locked(7, Some(1)));
    assert Run(EMPTY, es2) == s2;
    RunPending(es2);
    assert Free(s2.opks, 7) == {1};
    StaleRecountExceeds(s2, 0, 0, 7);
    RunAppend(EMPTY, es2, [Mark(0), CountFree(0, 7)] + [Commit(0), WriteCount(0)]);
  }

  // ---- The repository ------------------------------------------------------------------------

  /**
   The tables as the repository and the SQL function update them, one statement at a time. A
   statement that has to wait for the key row reports that it has not run.
   */
  class PrekeyStore {
    var opks: map<nat, OpkRow>
    var nextId: nat
    var keys: map<Uuid, KeyRow>
    var fetches: map<nat, Fetch>
    var recounts: map<nat, Recount>
    ghost var handed: seq<Handed>

    ghost function State(): Db
      reads this
    {
      Db(opks, nextId, keys, fetches, recounts, handed)
    }

    constructor ()
      ensures State() == EMPTY
    {
      opks, nextId, keys, fetches, recounts, handed := map[], 1, map[], map[], map[], [];
    }

    method UpsertKeys(user: Uuid, identity: string, signed: SignedPrekey) returns (ran: bool)
      modifies this
      ensures ran <==> !KeyRowLocked(old(fetches), user)
      ensures State() == Step(old(State()), Upsert(user, identity, signed))
    {
      if KeyRowLocked(fetches, user) {
        return false;
      }
      if user in keys {
        keys := keys[user := keys[user].(identityKey := identity, signedPrekey := signed)];
      } else {
        keys := keys[user := KeyRow(identity, signed, 0)];
      }
      return true;
    }

    method InsertPrekeys(user: Uuid, batch: seq<OneTimePrekey>)
      modifies this
      ensures State() == InsertAll(old(State()), user, batch)
    {
      var i := 0;
      while i < |batch|
        invariant 0 <= i <= |batch|
        invariant State() == InsertAll(old(State()), user, batch[..i])
      {
        if !HasKey(opks, user, batch[i].id) {
          opks := opks[nextId := OpkRow(user, batch[i].id, batch[i].key, false)];
        }
        nextId := nextId + 1;
        assert batch[..i + 1][..i] == batch[..i];
        i := i + 1;
      }
      assert batch[..|batch|] == batch;
    }

    /** The recount's subselect, in the snapshot of its statement. */
    method CountPrekeys(task: nat, user: Uuid)
      requires task !in recounts
      modifies this
      ensures State() == Step(old(State()), CountFree(task, user))
    {
      var free := set r | r in opks && opks[r].userId == user && !opks[r].consumed;
      assert free == Free(opks, user);
      recounts := recounts[task := Recount(user, |free|)];
    }

    /** The recount's write, once the key row can be locked. */
    method WritePrekeyCount(task: nat) returns (ran: bool)
      requires task in recounts
      modifies this
      ensures ran <==> !KeyRowLocked(old(fetches), old(recounts)[task].userId)
      ensures State() == Step(old(State()), WriteCount(task))
    {
      var r := recounts[task];
      if KeyRowLocked(fetches, r.userId) {
        return false;
      }
      if r.userId in keys {
        keys := keys[r.userId := keys[r.userId].(prekeyCount := r.found)];
      }
      recounts := recounts - {task};
      return true;
    }

    /** Both statements of an upload, with nothing in between. */
    method AddOneTimePrekeys(user: Uuid, batch: seq<OneTimePrekey>) returns (ran: bool)
      modifies this
      ensures ran <==> !KeyRowLocked(old(fetches), user)
      ensures State() == Step(old(State()), Upload(user, batch))
    {
      if KeyRowLocked(fetches, user) {
        return false;
      }
      InsertPrekeys(user, batch);
      if user in keys {
        var free := set r | r in opks && opks[r].userId == user && !opks[r].consumed;
        assert free == Free(opks, user);
        keys := keys[user := keys[user].(prekeyCount := |free|)];
      }
      return true;
    }

    /** A promise about the pool: never more than a careful user's free keys, and all of them once exact. */
    method GetPrekeyCount(user: Uuid) returns (count: int)
      ensures user in keys ==> count == keys[user].prekeyCount
      ensures Bounded(State(), user) ==> 0 <= count <= |Free(opks, user)|
      ensures Exact(State(), user) ==> count == |Free(opks, user)|
      ensures count > 0 && Bounded(State(), user) ==> exists r :: r in opks && opks[r].userId == user && !opks[r].consumed
    {
      if user in keys {
        count := keys[user].prekeyCount;
        if count > 0 && Bounded(State(), user) {
          ghost var r := Element(Free(opks, user));
          assert r in opks;
        }
        return;
      }
      return 0;
    }

    /** SELECT ... ORDER BY id LIMIT 1 FOR UPDATE SKIP LOCKED. */
    method LockPrekey(tx: nat, user: Uuid) returns (row: Option<nat>)
      requires tx !in fetches
      modifies this
      ensures State() == Step(old(State()), Begin(tx, user))
      ensures tx in fetches && fetches[tx] == Locked(user, row)
    {
      var free := Available(Db(opks, nextId, keys, fetches, recounts, []), user);
      assert free == Available(State(), user);
      row := None;
      if free != {} {
        row := Some(Least(free));
      }
      fetches := fetches[tx := Locked(user, row)];
    }

    /** The two UPDATE statements, still uncommitted. */
    method MarkPrekey(tx: nat) returns (ran: bool)
      requires tx in fetches && fetches[tx].Locked? && fetches[tx].row.Some?
      modifies this
      ensures ran <==> !KeyRowLocked(old(fetches), old(fetches)[tx].userId)
      ensures State() == Step(old(State()), Mark(tx))
    {
      var user := fetches[tx].userId;
      if KeyRowLocked(fetches, user) {
        return false;
      }
      var newCount := None;
      if user in keys {
        newCount := Some(Max(keys[user].prekeyCount - 1, 0));
      }
      fetches := fetches[tx := Marked(user, fetches[tx].row.value, newCount)];
      return true;
    }

    /** Commit, and the bundle the query returned: nothing if the user has no key row. */
    method CommitFetch(tx: nat) returns (bundle: Option<(KeyRow, Option<OneTimePrekey>)>)
      requires Inv(State())
      requires tx in fetches && (fetches[tx].Locked? ==> fetches[tx].row.None?)
      modifies this
      ensures State() == Step(old(State()), Commit(tx))
      ensures bundle.Some? <==> old(fetches)[tx].userId in keys
      ensures bundle.Some? ==> bundle.value.0 == keys[old(fetches)[tx].userId]
      ensures bundle.Some? && old(fetches)[tx].Locked? ==> bundle.value.1 == None
      ensures old(fetches)[tx].Marked? ==> old(fetches)[tx].taken in opks
      ensures bundle.Some? && old(fetches)[tx].Marked? ==>
                var row := opks[old(fetches)[tx].taken];
                row.consumed && bundle.value.1 == Some(OneTimePrekey(row.keyId, row.publicKey))
    {
      var f := fetches[tx];
      var opk := None;
      if f.Marked? {
        assert Holds(f, f.taken);
        var row := opks[f.taken];
        opk := Some(OneTimePrekey(row.keyId, row.publicKey));
        opks := opks[f.taken := row.(consumed := true)];
        if f.newCount.Some? && f.userId in keys {
          keys := keys[f.userId := keys[f.userId].(prekeyCount := f.newCount.value)];
        }
        handed := handed + [Handed(f.userId, row.keyId, f.taken)];
      }
      fetches := fetches - {tx};
      bundle := if f.userId in keys then Some((keys[f.userId], opk)) else None;
    }

    method AbortFetch(tx: nat)
      modifies this
      ensures State() == Step(old(State()), Abort(tx))
    {
      fetches := fetches - {tx};
    }
  }
}
