/**
 The phone_hashes set that contact sync consults before the database: its upkeep by the
 user repository, the startup migration of old hashes, and the sync request itself.
 */
module PhoneIndex {
  import opened Prelude

  /** Both digests of a phone number, taken to be free of collisions. */
  datatype Hash = Hmac(phone: string) | Sha(phone: string)

  datatype User = User(phone: string, hash: Hash, active: bool, deleted: bool)

  type Users = map<Uuid, User>

  /** The users table and the Redis set. */
  datatype State = State(users: Users, index: set<Hash>)

  datatype UserError = AlreadyExists

  predicate Taken(users: Users, id: Uuid, phone: string) {
    exists i :: i in users && i != id && users[i].phone == phone
  }

  /** `User::new` hashes with the server's secret. */
  function Create(s: State, id: Uuid, phone: string): (State, Result<(), UserError>) {
    if id in s.users || Taken(s.users, id, phone) then (s, Err(AlreadyExists))
    else (State(s.users[id := User(phone, Hmac(phone), true, false)], s.index + {Hmac(phone)}), Ok(()))
  }

  /** Only a live row is rewritten; the hash is added to the set in any case. */
  function Update(s: State, id: Uuid, user: User): (State, Result<(), UserError>) {
    if id !in s.users || s.users[id].deleted then (State(s.users, s.index + {user.hash}), Ok(()))
    else if Taken(s.users, id, user.phone) then (s, Err(AlreadyExists))
    else (State(s.users[id := user.(deleted := false)], s.index + {user.hash}), Ok(()))
  }

  function DeleteSoft(s: State, id: Uuid): State {
    if id !in s.users || s.users[id].deleted then s
    else State(s.users[id := s.users[id].(deleted := true)], s.index - {s.users[id].hash})
  }

  // ---- Migration of old hashes ------------------------------------------------------------------

  predicate Legacy(u: User) {
    !u.deleted && u.hash == Sha(u.phone)
  }

  function LegacyIds(users: Users): set<Uuid> {
    set id | id in users && Legacy(users[id])
  }

  /** The state once the legacy rows in `ids` have been migrated. */
  function Migrated(s: State, ids: set<Uuid>): State
    requires ids <= s.users.Keys
  {
    State(
      map id | id in s.users :: if id in ids then s.users[id].(hash := Hmac(s.users[id].phone)) else s.users[id],
      s.index - (set id | id in ids :: Sha(s.users[id].phone)) + (set id | id in ids :: Hmac(s.users[id].phone)))
  }

  function Rehash(s: State): State {
    Migrated(s, LegacyIds(s.users))
  }

  // ---- What is kept -----------------------------------------------------------------------------

  /** phone is a UNIQUE column, deleted rows included. */
  ghost predicate PhonesUnique(users: Users) {
    forall i, j :: i in users && j in users && users[i].phone == users[j].phone ==> i == j
  }

  ghost predicate HashesProper(users: Users) {
    forall i :: i in users ==> users[i].hash == Hmac(users[i].phone) || users[i].hash == Sha(users[i].phone)
  }

  /** Every live user's hash is in the set. */
  ghost predicate Complete(s: State) {
    forall i :: i in s.users && !s.users[i].deleted ==> s.users[i].hash in s.index
  }

  ghost predicate Good(s: State) {
    PhonesUnique(s.users) && HashesProper(s.users) && Complete(s)
  }

  datatype Event =
    | CreateUser(id: Uuid, phone: string)
    | UpdateUser(id: Uuid, user: User)
    | DeleteUser(id: Uuid)
    | RehashUsers

  /** A caller of `update` passes the hash of the phone, or the pair as stored. */
  ghost predicate Allowed(s: State, e: Event) {
    e.UpdateUser? ==>
      || e.user.hash == Hmac(e.user.phone)
      || (e.id in s.users && e.user.phone == s.users[e.id].phone && e.user.hash == s.users[e.id].hash)
  }

  ghost function Step(s: State, e: Event): State {
    if !Allowed(s, e) then s else
      match e
      case CreateUser(id, phone) => Create(s, id, phone).0
      case UpdateUser(id, user) => Update(s, id, user).0
      case DeleteUser(id) => DeleteSoft(s, id)
      case RehashUsers => Rehash(s)
  }

  ghost function Run(s: State, es: seq<Event>): State {
    if es == [] then s else Step(Run(s, es[..|es| - 1]), es[|es| - 1])
  }

  lemma {:induction false} MigrationKeepsGood(s: State, ids: set<Uuid>)
    requires Good(s) && ids <= LegacyIds(s.users)
    ensures Good(Migrated(s, ids))
  {
  }

  lemma {:induction false} DeleteKeepsGood(s: State, id: Uuid)
    requires Good(s)
    ensures Good(DeleteSoft(s, id))
  {
    var s' := DeleteSoft(s, id);
    forall i | i in s'.users && !s'.users[i].deleted ensures s'.users[i].hash in s'.index {
      assert s.users[i].hash in s.index;
    }
  }

  lemma {:induction false} StepKeepsGood(s: State, e: Event)
    requires Good(s)
    ensures Good(Step(s, e))
  {
    match e
    case RehashUsers => MigrationKeepsGood(s, LegacyIds(s.users));
    case DeleteUser(id) => DeleteKeepsGood(s, id);
    case _ =>
  }

  /** The set covers all live users after every run that starts with a complete one. */
  lemma {:induction false} RunKeepsGood(s: State, es: seq<Event>)
    requires Good(s)
    ensures Good(Run(s, es))
  {
    if es != [] {
      RunKeepsGood(s, es[..|es| - 1]);
      StepKeepsGood(Run(s, es[..|es| - 1]), es[|es| - 1]);
    }
  }

  lemma {:induction false} NothingLegacyLeft(s: State)
    ensures LegacyIds(Rehash(s).users) == {}
  {
    forall id ensures id !in LegacyIds(Rehash(s).users) {
      if id in s.users {
        assert id in LegacyIds(s.users) <==> Legacy(s.users[id]);
      }
    }
  }

  /** A second migration changes nothing. */
  lemma {:induction false} RehashTwice(s: State)
    ensures LegacyIds(Rehash(s).users) == {}
    ensures Rehash(Rehash(s)) == Rehash(s)
  {
    var r := Rehash(s);
    NothingLegacyLeft(s);
    assert Migrated(r, {}).users == r.users;
    assert Migrated(r, {}).index == r.index;
  }

  /** A migration cut short and run again ends as an undisturbed one. */
  lemma {:induction false} RehashResumes(s: State, ids: set<Uuid>)
    requires ids <= LegacyIds(s.users)
    ensures Rehash(Migrated(s, ids)) == Rehash(s)
  {
    var m, all := Migrated(s, ids), LegacyIds(s.users);
    var rest := LegacyIds(m.users);
    forall id ensures id in rest <==> id in all - ids {
      if id in s.users {
        assert id in all <==> Legacy(s.users[id]);
      }
    }
    assert Migrated(m, rest).users == Migrated(s, all).users;
    assert Migrated(m, rest).index == Migrated(s, all).index by {
      forall h ensures h in Migrated(m, rest).index <==> h in Migrated(s, all).index {
        assert forall i :: i in rest ==> m.users[i] == s.users[i];
        assert forall i :: i in all ==> i in ids || i in rest;
      }
    }
  }

  /** Once migrated, the rows stay migrated. */
  lemma {:induction false} MigrationLasts(s: State, es: seq<Event>)
    requires LegacyIds(s.users) == {}
    ensures LegacyIds(Run(s, es).users) == {}
  {
    if es != [] {
      var t, e := Run(s, es[..|es| - 1]), es[|es| - 1];
      MigrationLasts(s, es[..|es| - 1]);
      forall id | id in Step(t, e).users ensures !Legacy(Step(t, e).users[id]) {
        assert id in t.users ==> id !in LegacyIds(t.users);
      }
    }
  }

  // ---- What is stored --------------------------------------------------------------------------

  /** A user is created unless the id or the phone is taken by any row, deleted ones included; nobody else's row changes. */
  lemma {:induction false} CreateStores(s: State, id: Uuid, phone: string)
    ensures var (t, r) := Create(s, id, phone);
            && (r.Err? <==> id in s.users || exists i :: i in s.users && s.users[i].phone == phone)
            && (r.Err? ==> t == s)
            && (r.Ok? ==> t.users == s.users[id := User(phone, Hmac(phone), true, false)] && t.index == s.index + {Hmac(phone)})
  {
  }

  /** An update stores the given row in place of a live one unless another row has the phone, and changes nobody else's. */
  lemma {:induction false} UpdateStores(s: State, id: Uuid, user: User)
    ensures var (t, r) := Update(s, id, user);
            var live := id in s.users && !s.users[id].deleted;
            && (r.Err? <==> live && exists i :: i in s.users && i != id && s.users[i].phone == user.phone)
            && (r.Err? ==> t == s)
            && (r.Ok? ==> t.index == s.index + {user.hash})
            && (r.Ok? ==> t.users == if live then s.users[id := User(user.phone, user.hash, user.active, false)] else s.users)
  {
  }

  /** Deleting keeps every row and every column but the mark of deletion. */
  lemma {:induction false} DeleteStores(s: State, id: Uuid)
    ensures var t := DeleteSoft(s, id);
            && t.users.Keys == s.users.Keys
            && (forall i :: i in s.users ==> t.users[i] == if i == id then s.users[i].(deleted := true) else s.users[i])
            && t.index == if id in s.users && !s.users[id].deleted then s.index - {s.users[id].hash} else s.index
  {
  }

  // ---- Contact sync -------------------------------------------------------------------------------

  /** The hashes for which SMISMEMBER answers yes. */
  function Known(index: set<Hash>, hashes: seq<Hash>): seq<Hash> {
    if hashes == [] then []
    else (if hashes[0] in index then [hashes[0]] else []) + Known(index, hashes[1..])
  }

  /** The database query: live, active users with one of the hashes. */
  function Query(users: Users, hashes: seq<Hash>): set<Uuid> {
    set id | id in users && !users[id].deleted && users[id].active && users[id].hash in hashes
  }

  lemma {:induction false} KnownIff(index: set<Hash>, hashes: seq<Hash>, h: Hash)
    ensures h in Known(index, hashes) <==> h in hashes && h in index
  {
    if hashes != [] {
      KnownIff(index, hashes[1..], h);
    }
  }

  /** Asking the set first never changes the answer. */
  lemma {:induction false} PrefilterIsExact(s: State, es: seq<Event>, hashes: seq<Hash>)
    requires Good(s)
    ensures var t := Run(s, es);
            Query(t.users, Known(t.index, hashes)) == Query(t.users, hashes)
  {
    RunKeepsGood(s, es);
    PrefilterExact(Run(s, es), hashes);
  }

  lemma {:induction false} PrefilterExact(t: State, hashes: seq<Hash>)
    requires Complete(t)
    ensures Query(t.users, Known(t.index, hashes)) == Query(t.users, hashes)
  {
    forall id ensures id in Query(t.users, Known(t.index, hashes)) <==> id in Query(t.users, hashes) {
      if id in t.users {
        KnownIff(t.index, hashes, t.users[id].hash);
      }
    }
  }

  /** Without that invariant: the filter changes the answer exactly when it misses a user the query would find. */
  lemma {:induction false} PrefilterExactIff(t: State, hashes: seq<Hash>)
    ensures Query(t.users, Known(t.index, hashes)) == Query(t.users, hashes) <==>
            forall id :: id in Query(t.users, hashes) ==> t.users[id].hash in t.index
  {
    var some, all := Query(t.users, Known(t.index, hashes)), Query(t.users, hashes);
    forall id | id in t.users ensures id in some <==> id in all && t.users[id].hash in t.index {
      KnownIff(t.index, hashes, t.users[id].hash);
    }
    if forall id :: id in all ==> t.users[id].hash in t.index {
      assert forall id :: id in some <==> id in all;
    } else {
      var id :| id in all && t.users[id].hash !in t.index;
      assert id !in some;
    }
  }

  function Hmacs(phones: seq<string>): seq<Hash> {
    seq(|phones|, i requires 0 <= i < |phones| => Hmac(phones[i]))
  }

  lemma HmacsIff(phones: seq<string>, h: Hash)
    ensures h in Hmacs(phones) <==> h.Hmac? && h.phone in phones
  {
    if h.Hmac? && h.phone in phones {
      var i :| 0 <= i < |phones| && phones[i] == h.phone;
      assert Hmacs(phones)[i] == h;
    }
  }

  /** The first phone of the request whose hash is `h`, or the empty string. */
  function OriginalPhone(phones: seq<string>, h: Hash): string {
    if phones == [] then ""
    else if Hmac(phones[0]) == h then phones[0]
    else OriginalPhone(phones[1..], h)
  }

  lemma {:induction false} OriginalPhoneOf(phones: seq<string>, phone: string)
    requires phone in phones
    ensures OriginalPhone(phones, Hmac(phone)) == phone
  {
    if phones[0] != phone {
      OriginalPhoneOf(phones[1..], phone);
    }
  }

  datatype SyncMatch = SyncMatch(hash: Hash, user: Uuid)

  function MatchedUsers(matches: seq<SyncMatch>): set<Uuid> {
    set m | m in matches :: m.user
  }

  datatype SyncError = BadPhoneCount

  /** Users with a migrated row whose phone is in the request. */
  ghost predicate Findable(users: Users, phones: seq<string>, id: Uuid) {
    && id in users && !users[id].deleted && users[id].active
    && users[id].hash == Hmac(users[id].phone) && users[id].phone in phones
  }

  /** Which users a sync finds, and that the reply leads back to their own phone. */
  lemma {:induction false} FoundIffFindable(s: State, phones: seq<string>, id: Uuid)
    requires Good(s)
    ensures id in Query(s.users, Known(s.index, Hmacs(phones))) <==> Findable(s.users, phones, id)
    ensures Findable(s.users, phones, id) ==> OriginalPhone(phones, s.users[id].hash) == s.users[id].phone
  {
    PrefilterExact(s, Hmacs(phones));
    if id in s.users {
      HmacsIff(phones, s.users[id].hash);
      if s.users[id].phone in phones {
        OriginalPhoneOf(phones, s.users[id].phone);
      }
    }
  }

  /** The index holds the hash of every live user who needs no migration. */
  ghost predicate CompleteForMigrated(s: State) {
    forall i :: i in s.users && !s.users[i].deleted && !Legacy(s.users[i]) ==> s.users[i].hash in s.index
  }

  lemma {:induction false} RehashedUser(s: State, i: Uuid)
    requires i in s.users
    ensures var u := s.users[i];
            Rehash(s).users[i] == if !u.deleted && u.hash == Sha(u.phone) then User(u.phone, Hmac(u.phone), u.active, false) else u
    ensures Rehash(s).users.Keys == s.users.Keys
  {
    assert i in LegacyIds(s.users) <==> Legacy(s.users[i]);
  }

  lemma {:induction false} RehashedHash(s: State, i: Uuid)
    requires PhonesUnique(s.users) && HashesProper(s.users) && i in s.users && !s.users[i].deleted
    ensures Rehash(s).users[i].hash in Rehash(s).index <==> Legacy(s.users[i]) || s.users[i].hash in s.index
  {
    RehashedUser(s, i);
    assert i in LegacyIds(s.users) <==> Legacy(s.users[i]);
    if !Legacy(s.users[i]) {
      forall j | j in LegacyIds(s.users) ensures s.users[j].phone != s.users[i].phone {
        assert Legacy(s.users[j]);
      }
    }
  }

  /** The migration leaves a complete index exactly when the index was complete for the users it does not touch. */
  lemma {:induction false} RehashCompletesIff(s: State)
    requires PhonesUnique(s.users) && HashesProper(s.users)
    ensures PhonesUnique(Rehash(s).users) && HashesProper(Rehash(s).users)
    ensures Complete(Rehash(s)) <==> CompleteForMigrated(s)
  {
    forall i | i in s.users
      ensures var v := Rehash(s).users[i];
              && v.phone == s.users[i].phone && v.deleted == s.users[i].deleted
              && (v.hash == Hmac(v.phone) || v.hash == Sha(v.phone))
              && (!v.deleted ==> (v.hash in Rehash(s).index <==> Legacy(s.users[i]) || s.users[i].hash in s.index))
    {
      RehashedUser(s, i);
      if !s.users[i].deleted {
        RehashedHash(s, i);
      }
    }
  }

  /** After the migration a sync finds exactly the live, active users with a listed phone. */
  lemma {:induction false} MigratedUsersAreFound(s: State, es: seq<Event>, phones: seq<string>, id: Uuid)
    requires PhonesUnique(s.users) && HashesProper(s.users) && CompleteForMigrated(s)
    ensures var t := Run(Rehash(s), es);
            id in Query(t.users, Known(t.index, Hmacs(phones))) <==>
            id in t.users && !t.users[id].deleted && t.users[id].active && t.users[id].phone in phones
  {
    var t := Run(Rehash(s), es);
    RehashCompletesIff(s);
    RunKeepsGood(Rehash(s), es);
    RehashTwice(s);
    MigrationLasts(Rehash(s), es);
    FoundIffFindable(t, phones, id);
    if id in t.users {
      assert id !in LegacyIds(t.users);
    }
  }

  /** These events leave the user's row alone, except for a migration. */
  ghost predicate Spares(e: Event, id: Uuid) {
    !(e.UpdateUser? && e.id == id) && e != DeleteUser(id)
  }

  lemma {:induction false} RowSpared(s: State, es: seq<Event>, id: Uuid, u: User)
    requires id in s.users && s.users[id] == u && u.hash == Hmac(u.phone)
    requires forall i :: 0 <= i < |es| ==> Spares(es[i], id)
    ensures id in Run(s, es).users && Run(s, es).users[id] == u
  {
    if es != [] {
      RowSpared(s, es[..|es| - 1], id, u);
      assert Spares(es[|es| - 1], id);
      assert id !in LegacyIds(Run(s, es[..|es| - 1]).users);
    }
  }

  /** Whoever signs up with a phone is found by every later sync that lists it, until they change or delete their account. */
  lemma {:induction false} SignedUpIsFound(s: State, id: Uuid, phone: string, es: seq<Event>, phones: seq<string>)
    requires Good(s) && id !in s.users && !Taken(s.users, id, phone)
    requires forall i :: 0 <= i < |es| ==> Spares(es[i], id)
    ensures var t := Run(Step(s, CreateUser(id, phone)), es);
            id in Query(t.users, Known(t.index, Hmacs(phones))) <==> phone in phones
  {
    var s1 := Step(s, CreateUser(id, phone));
    StepKeepsGood(s, CreateUser(id, phone));
    RunKeepsGood(s1, es);
    RowSpared(s1, es, id, User(phone, Hmac(phone), true, false));
    FoundIffFindable(Run(s1, es), phones, id);
  }

  lemma {:induction false} DeletedStays(s: State, es: seq<Event>, id: Uuid)
    requires id in s.users && s.users[id].deleted
    ensures id in Run(s, es).users && Run(s, es).users[id].deleted
  {
    if es != [] {
      DeletedStays(s, es[..|es| - 1], id);
    }
  }

  /** A deleted user is found by no later sync. */
  lemma {:induction false} DeletedIsNeverFound(s: State, id: Uuid, es: seq<Event>, phones: seq<string>)
    requires Good(s) && id in s.users
    ensures var t := Run(Step(s, DeleteUser(id)), es);
            id !in Query(t.users, Known(t.index, Hmacs(phones)))
  {
    var s1 := Step(s, DeleteUser(id));
    DeletedStays(s1, es, id);
  }

  /** One match for each of these users, with the plain hash of the phone behind the stored hash. */
  ghost predicate IsReply(users: Users, found: set<Uuid>, matches: seq<SyncMatch>) {
    && MatchedUsers(matches) == found
    && (forall m :: m in matches ==> m.user in users && m.hash == Sha(users[m.user].hash.phone))
    && (forall i, j :: 0 <= i < j < |matches| ==> matches[i].user != matches[j].user)
  }

  lemma {:induction false} AppendReply(users: Users, found: set<Uuid>, matches: seq<SyncMatch>, next: SyncMatch)
    requires IsReply(users, found, matches) && next.user in users && next.user !in found
    requires next.hash == Sha(users[next.user].hash.phone)
    ensures IsReply(users, found + {next.user}, matches + [next])
  {
    var all := matches + [next];
    forall id ensures id in MatchedUsers(all) <==> id in found + {next.user} {
      assert forall m :: m in all <==> m in matches || m == next;
    }
    forall i | 0 <= i < |matches| ensures matches[i].user in found {
      assert matches[i] in matches;
    }
  }

  lemma {:induction false} ReplyWhenGood(s: State, phones: seq<string>, matches: seq<SyncMatch>)
    requires Good(s) && IsReply(s.users, Query(s.users, Known(s.index, Hmacs(phones))), matches)
    ensures forall id :: id in MatchedUsers(matches) <==> Findable(s.users, phones, id)
    ensures forall m :: m in matches ==> m.user in s.users && m.hash == Sha(s.users[m.user].phone)
  {
    forall id ensures id in Query(s.users, Known(s.index, Hmacs(phones))) <==> Findable(s.users, phones, id) {
      FoundIffFindable(s, phones, id);
    }
    forall m | m in matches ensures m.user in s.users && m.hash == Sha(s.users[m.user].phone) {
      assert m.user in MatchedUsers(matches);
    }
  }

  lemma {:induction false} MigrateOneMore(s: State, done: set<Uuid>, id: Uuid)
    requires done <= LegacyIds(s.users) && id in LegacyIds(s.users) && id !in done
    ensures var m, u := Migrated(s, done), s.users[id];
            Migrated(s, done + {id}) ==
            State(m.users[id := m.users[id].(hash := Hmac(u.phone))], m.index - {u.hash} + {Hmac(u.phone)})
  {
    var m, u := Migrated(s, done), s.users[id];
    var n := Migrated(s, done + {id});
    assert n.users == m.users[id := m.users[id].(hash := Hmac(u.phone))];
    assert n.index == m.index - {u.hash} + {Hmac(u.phone)} by {
      forall h ensures h in n.index <==> h in m.index - {u.hash} + {Hmac(u.phone)} {
      }
    }
  }

  // ---- The repository -------------------------------------------------------------------------------

  class UserStore {
    var users: Users
    var phoneHashes: set<Hash>

    function Contents(): State
      reads this
    {
      State(users, phoneHashes)
    }

    constructor ()
      ensures Contents() == State(map[], {})
    {
      users, phoneHashes := map[], {};
    }

    method CreateUser(id: Uuid, phone: string) returns (r: Result<(), UserError>)
      modifies this
      ensures (Contents(), r) == Create(old(Contents()), id, phone)
    {
      if id in users || Taken(users, id, phone) {
        return Err(AlreadyExists);
      }
      users := users[id := User(phone, Hmac(phone), true, false)];
      phoneHashes := phoneHashes + {Hmac(phone)};
      return Ok(());
    }

    method UpdateUser(id: Uuid, user: User) returns (r: Result<(), UserError>)
      modifies this
      ensures (Contents(), r) == Update(old(Contents()), id, user)
    {
      if id in users && !users[id].deleted {
        if Taken(users, id, user.phone) {
          return Err(AlreadyExists);
        }
        users := users[id := user.(deleted := false)];
      }
      phoneHashes := phoneHashes + {user.hash};
      return Ok(());
    }

    method SoftDelete(id: Uuid)
      modifies this
      ensures Contents() == DeleteSoft(old(Contents()), id)
    {
      var found := if id in users && !users[id].deleted then Some(users[id]) else None;
      if id in users {
        users := users[id := users[id].(deleted := true)];
      }
      if found.Some? {
        phoneHashes := phoneHashes - {found.value.hash};
      }
    }

    /** `rehash_phone_numbers`: the rows are read once, then migrated one by one. */
    method RehashPhoneNumbers()
      modifies this
      ensures Contents() == Rehash(old(Contents()))
    {
      ghost var s := Contents();
      var rows := map id | id in users && Legacy(users[id]) :: users[id];
      var todo := rows.Keys;
      ghost var done: set<Uuid> := {};
      assert Migrated(s, {}) == s by {
        assert Migrated(s, {}).users == s.users;
        assert Migrated(s, {}).index == s.index;
      }
      while todo != {}
        invariant done + todo == rows.Keys && done !! todo
        invariant rows.Keys == LegacyIds(s.users)
        invariant forall id :: id in rows ==> rows[id] == s.users[id]
        invariant Contents() == Migrated(s, done)
        decreases todo
      {
        var id := Pick(todo);
        var row := rows[id];
        users := users[id := users[id].(hash := Hmac(row.phone))];
        phoneHashes := phoneHashes - {row.hash};
        phoneHashes := phoneHashes + {Hmac(row.phone)};
        MigrateOneMore(s, done, id);
        done := done + {id};
        todo := todo - {id};
      }
    }

    /** The repository's part of a sync. */
    method FindByHashes(hashes: seq<Hash>) returns (found: set<Uuid>)
      ensures found == Query(users, Known(phoneHashes, hashes))
    {
      if hashes == [] {
        return {};
      }
      var existing := Known(phoneHashes, hashes);
      if existing == [] {
        return {};
      }
      found := Query(users, existing);
    }

    /**
     The sync handler; the database may return its rows in any order. Every match carries the
     plain hash of the phone that the user's stored hash was made from.
     */
    method SyncContacts(phones: seq<string>) returns (r: Result<seq<SyncMatch>, SyncError>)
      ensures r.Err? <==> |phones| == 0 || |phones| > 1000
      ensures r.Ok? ==> IsReply(users, Query(users, Known(phoneHashes, Hmacs(phones))), r.value)
      ensures r.Ok? && Good(Contents()) ==> forall id :: id in MatchedUsers(r.value) <==> Findable(users, phones, id)
      ensures r.Ok? && Good(Contents()) ==> forall m :: m in r.value ==> m.user in users && m.hash == Sha(users[m.user].phone)
    {
      if |phones| == 0 || |phones| > 1000 {
        return Err(BadPhoneCount);
      }
      var records := FindByHashes(Hmacs(phones));
      var matches: seq<SyncMatch> := [];
      var rest := records;
      while rest != {}
        invariant rest <= records
        invariant records == Query(users, Known(phoneHashes, Hmacs(phones)))
        invariant IsReply(users, records - rest, matches)
        decreases rest
      {
        var id := Pick(rest);
        KnownIff(phoneHashes, Hmacs(phones), users[id].hash);
        HmacsIff(phones, users[id].hash);
        OriginalPhoneOf(phones, users[id].hash.phone);
        var next := SyncMatch(Sha(OriginalPhone(phones, users[id].hash)), id);
        AppendReply(users, records - rest, matches, next);
        matches := matches + [next];
        assert records - (rest - {id}) == (records - rest) + {id};
        rest := rest - {id};
      }
      assert records - rest == records;
      if Good(Contents()) {
        ReplyWhenGood(Contents(), phones, matches);
      }
      return Ok(matches);
    }
  }
}
