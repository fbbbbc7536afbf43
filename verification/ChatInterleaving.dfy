/**
 The chat methods with their checks and their writes apart: a request reads and checks, other
 requests run, and only then does its transaction write.
 */
module ChatInterleaving {
  import opened Prelude
  import opened KeyRotation
  import opened Chats
  import opened ChatRuns

  /** What is left to do once a method's checks have passed. */
  datatype Write =
    | InsertPair(creator: Uuid, other: Uuid)
    | InsertGroup(creator: Uuid, participants: seq<Uuid>)
    | Upsert(chat: nat, user: Uuid, row: Participant)
    | Rejoin(chat: nat, user: Uuid)
    | Leave(chat: nat, user: Uuid)
    | SetRole(chat: nat, user: Uuid, role: Role)
    | StoreLink(chat: nat, link: string)
    | StoreKeys(chat: nat, keys: seq<(Uuid, string)>)
    | Swap(chat: nat, current: Uuid, next: Uuid)
    | Close(chat: nat)

  /** The reads and checks of a method; the constraints on links are checked by the write. */
  function Check(t: Table, e: Event): Option<Write> {
    match e
    case CreatePrivate(_, creator, other) =>
      if creator == other || PrivateChats(t, creator, other) != {} then None else Some(InsertPair(creator, other))
    case CreateGroup(_, creator, participants) => Some(InsertGroup(creator, participants))
    case Add(chat, actor, user, key) =>
      var r := AddParticipant(t, chat, actor, user, key).1;
      if r.Ok? then Some(Upsert(chat, user, r.value)) else None
    case Remove(chat, actor, target) =>
      if RemoveParticipant(t, chat, actor, target).1.Ok? then Some(Leave(chat, target)) else None
    case ChangeRole(chat, actor, target, newRole) =>
      if UpdateParticipantRole(t, chat, actor, target, newRole).1.Ok? then Some(SetRole(chat, target, newRole)) else None
    case Join(slug, user) =>
      if BySlug(t, slug) == {} || RoleIn(t, Least(BySlug(t, slug)), user).Some? then None
      else Some(Rejoin(Least(BySlug(t, slug)), user))
    case JoinFound(chat, user) =>
      if chat in t && t[chat].inviteLink.Some? && RoleIn(t, chat, user).None? then Some(Rejoin(chat, user)) else None
    case SetLink(chat, actor, wanted, random) =>
      var role := RoleIn(t, chat, actor);
      if role.Some? && Level(role.value) >= Level(Admin) then Some(StoreLink(chat, ChosenLink(wanted, random))) else None
    case RotateKey(chat, actor, keys) =>
      if RotateGroupKey(t, chat, actor, keys).1.Ok? then Some(StoreKeys(chat, keys)) else None
    case Transfer(chat, current, next) =>
      if TransferOwnership(t, chat, current, next).1.Ok? then Some(Swap(chat, current, next)) else None
    case Delete(user, chat) =>
      if DeleteChat(t, user, chat).1.Err? then None
      else if t[chat].kind.Group? && t[chat].members[user].role.Owner? then Some(Close(chat))
      else Some(Leave(chat, user))
  }

  /** The write, on the tables as they are by then; `id` is the fresh id an insert draws. */
  function Apply(t: Table, w: Write, id: nat): Table {
    match w
    case InsertPair(creator, other) => if id in t then t else WithPrivateChat(t, id, creator, other)
    case InsertGroup(creator, participants) => if id in t then t else CreateGroupChat(t, id, creator, participants)
    case Upsert(chat, user, row) => if chat in t then WithMember(t, chat, user, row) else t
    case Rejoin(chat, user) => if chat in t then WithMember(t, chat, user, Rejoined(t, chat, user)) else t
    case Leave(chat, user) =>
      if chat in t && user in t[chat].members then WithMember(t, chat, user, t[chat].members[user].(left := true)) else t
    case SetRole(chat, user, role) =>
      if chat in t && IsActiveIn(t[chat].members, user)
      then WithMember(t, chat, user, t[chat].members[user].(role := role)) else t
    case StoreLink(chat, link) =>
      if chat !in t || t[chat].kind.Private? || LinkTaken(t, chat, link) then t
      else t[chat := t[chat].(inviteLink := Some(link))]
    case StoreKeys(chat, keys) => if chat in t then t[chat := t[chat].(members := Rotated(t[chat].members, keys))] else t
    case Swap(chat, current, next) =>
      if chat in t && current in t[chat].members && next in t[chat].members then Swapped(t, chat, current, next) else t
    case Close(chat) => if chat in t then t[chat := t[chat].(deleted := true)] else t
  }

  function FreshId(e: Event): nat {
    match e
    case CreatePrivate(id, _, _) => id
    case CreateGroup(id, _, _) => id
    case _ => 0
  }

  function CheckAndWrite(t: Table, e: Event): Table {
    match Check(t, e)
    case None => t
    case Some(w) => Apply(t, w, FreshId(e))
  }

  lemma JoinIsCheckAndWrite(t: Table, slug: string, user: Uuid)
    ensures Step(t, Join(slug, user)) == CheckAndWrite(t, Join(slug, user))
  {
  }

  lemma DeleteIsCheckAndWrite(t: Table, user: Uuid, chat: nat)
    ensures Step(t, Delete(user, chat)) == CheckAndWrite(t, Delete(user, chat))
  {
  }

  /** A method taken as one step is its check followed at once by its write. */
  lemma {:induction false} AtomicIsCheckAndWrite(t: Table, e: Event)
    ensures Step(t, e) == CheckAndWrite(t, e)
  {
    match e
    case Join(slug, user) => JoinIsCheckAndWrite(t, slug, user);
    case Delete(user, chat) => DeleteIsCheckAndWrite(t, user, chat);
    case _ =>
  }

  // ---- Runs ---------------------------------------------------------------------------------------

  datatype State = State(chats: Table, tasks: map<nat, Write>)

  const EMPTY := State(map[], map[])

  /** A request passes its checks, or a request that has passed them writes. */
  datatype Act = Begin(task: nat, e: Event) | Finish(task: nat, id: nat)

  predicate Inserts(w: Write) {
    w.InsertPair? || w.InsertGroup?
  }

  function Next(s: State, a: Act): State {
    match a
    case Begin(task, e) =>
      if task in s.tasks || Check(s.chats, e).None? then s
      else s.(tasks := s.tasks[task := Check(s.chats, e).value])
    case Finish(task, id) =>
      if task !in s.tasks || (Inserts(s.tasks[task]) && id in s.chats) then s
      else State(Apply(s.chats, s.tasks[task], id), s.tasks - {task})
  }

  function Run(s: State, acts: seq<Act>): State {
    if acts == [] then s else Next(Run(s, acts[..|acts| - 1]), acts[|acts| - 1])
  }

  // ---- What waiting writes can rely on ----------------------------------------------------------------

  predicate InGroup(t: Table, chat: nat) {
    chat in t && t[chat].kind.Group?
  }

  /** What a write's checks established and nothing takes back. */
  ghost predicate WriteOk(t: Table, w: Write) {
    match w
    case InsertPair(creator, other) => creator != other
    case Upsert(chat, _, row) => InGroup(t, chat) && row.role.Member? && !row.left
    case Rejoin(chat, _) => InGroup(t, chat)
    case SetRole(chat, _, role) => InGroup(t, chat) && !role.Owner?
    case StoreKeys(chat, _) => InGroup(t, chat)
    case Swap(chat, current, next) =>
      InGroup(t, chat) && current in t[chat].members && next in t[chat].members && current != next
    case Close(chat) => InGroup(t, chat)
    case _ => true
  }

  ghost predicate Inv(s: State) {
    PrivateOk(s.chats) && forall p :: p in s.tasks ==> WriteOk(s.chats, s.tasks[p])
  }

  lemma {:induction false} CheckOk(t: Table, e: Event)
    requires PrivateOk(t) && Check(t, e).Some?
    ensures WriteOk(t, Check(t, e).value)
  {
  }

  /** Chats keep their kind, and rows of members are never removed. */
  lemma {:induction false} ApplyKeepsRows(t: Table, w: Write, id: nat, chat: nat)
    requires chat in t
    ensures var t' := Apply(t, w, id);
            chat in t' && t'[chat].kind == t[chat].kind && t[chat].members.Keys <= t'[chat].members.Keys
  {
    if w.StoreKeys? && w.chat == chat {
      RotationMeaning(t[chat].members, w.keys);
    }
  }

  lemma {:induction false} WriteStaysOk(t: Table, w: Write, id: nat, v: Write)
    requires WriteOk(t, v)
    ensures WriteOk(Apply(t, w, id), v)
  {
    match v
    case InsertPair(_, _) =>
    case InsertGroup(_, _) =>
    case Leave(_, _) =>
    case StoreLink(_, _) =>
    case _ => ApplyKeepsRows(t, w, id, v.chat);
  }

  /** A private chat keeps its two plain members; a write can only let one leave. */
  lemma {:induction false} ApplyOnPrivate(t: Table, w: Write, id: nat, chat: nat)
    requires chat in t && t[chat].kind.Private? && PlainPair(t[chat]) && WriteOk(t, w)
    ensures var t' := Apply(t, w, id);
            && chat in t' && t'[chat].kind.Private? && PlainPair(t'[chat])
            && t'[chat].members.Keys == t[chat].members.Keys
            && forall u :: u in t[chat].members && t[chat].members[u].left ==> t'[chat].members[u].left
  {
    if w.Leave? && w.chat == chat && w.user in t[chat].members {
      LeaveKeeps(t, chat, w.user);
    }
  }

  lemma {:induction false} NewChatOk(t: Table, w: Write, id: nat, chat: nat)
    requires WriteOk(t, w) && chat !in t && chat in Apply(t, w, id)
    ensures chat == id && Inserts(w)
    ensures var c := Apply(t, w, id)[chat];
            if w.InsertPair? then c.kind.Private? && PlainPair(c) else c.kind.Group? && OwnedBy(c, w.creator)
  {
    if w.InsertPair? {
      var c := Apply(t, w, id)[chat];
      assert c.members.Keys == {w.creator, w.other};
      assert |c.members| == |c.members.Keys|;
    }
  }

  lemma {:induction false} ApplyKeepsPrivateOk(t: Table, w: Write, id: nat)
    requires PrivateOk(t) && WriteOk(t, w)
    ensures PrivateOk(Apply(t, w, id))
  {
    var t' := Apply(t, w, id);
    forall c | c in t' && t'[c].kind.Private? ensures PlainPair(t'[c]) {
      if c in t {
        ApplyKeepsRows(t, w, id, c);
        ApplyOnPrivate(t, w, id, c);
      } else {
        NewChatOk(t, w, id, c);
      }
    }
  }

  lemma {:induction false} FinishKeepsInv(s: State, task: nat, id: nat)
    requires Inv(s) && task in s.tasks
    ensures PrivateOk(Apply(s.chats, s.tasks[task], id))
    ensures forall p :: p in s.tasks ==> WriteOk(Apply(s.chats, s.tasks[task], id), s.tasks[p])
  {
    ApplyKeepsPrivateOk(s.chats, s.tasks[task], id);
    forall p | p in s.tasks ensures WriteOk(Apply(s.chats, s.tasks[task], id), s.tasks[p]) {
      WriteStaysOk(s.chats, s.tasks[task], id, s.tasks[p]);
    }
  }

  lemma {:induction false} NextKeepsInv(s: State, a: Act)
    requires Inv(s)
    ensures Inv(Next(s, a))
  {
    match a
    case Begin(task, e) =>
      if Check(s.chats, e).Some? {
        CheckOk(s.chats, e);
      }
    case Finish(task, id) =>
      if task in s.tasks {
        FinishKeepsInv(s, task, id);
      }
  }

  /** Over all interleaved runs private chats keep their two plain members, and waiting writes what they rely on. */
  lemma {:induction false} RunKeepsInv(acts: seq<Act>)
    ensures Inv(Run(EMPTY, acts))
  {
    if acts != [] {
      RunKeepsInv(acts[..|acts| - 1]);
      NextKeepsInv(Run(EMPTY, acts[..|acts| - 1]), acts[|acts| - 1]);
    }
  }

  lemma RunAt(acts: seq<Act>, n: nat)
    requires n < |acts|
    ensures Run(EMPTY, acts[..n + 1]) == Next(Run(EMPTY, acts[..n]), acts[n])
  {
    assert acts[..n + 1][..n] == acts[..n];
  }

  /** The write that this act is, if it is one. */
  function Writing(s: State, a: Act): Option<Write> {
    if a.Finish? && a.task in s.tasks && !(Inserts(s.tasks[a.task]) && a.id in s.chats) then Some(s.tasks[a.task]) else None
  }

  // ---- Ownership -------------------------------------------------------------------------------------

  /** The chat has one owner row, and it is active. */
  ghost predicate Owned(c: Chat) {
    exists o :: OwnedBy(c, o)
  }

  /** A group is owned so. */
  ghost predicate OneOwner(t: Table, chat: nat) {
    InGroup(t, chat) ==> Owned(t[chat])
  }

  /** The condition on the owner of the moment under which a write leaves one active owner. */
  ghost predicate SafeWrite(t: Table, w: Write, chat: nat) {
    InGroup(t, chat) ==>
      match w
      case Upsert(c, u, _) => c == chat ==> !OwnedBy(t[chat], u)
      case Rejoin(c, u) => c == chat ==> !OwnedBy(t[chat], u)
      case Leave(c, u) => c == chat ==> !OwnedBy(t[chat], u)
      case SetRole(c, u, _) => c == chat ==> !OwnedBy(t[chat], u)
      case Swap(c, current, next) =>
        c == chat ==> (OwnedBy(t[chat], current) || OwnedBy(t[chat], next))
                      && next in t[chat].members && !t[chat].members[next].left
      case _ => true
  }

  /** Overwriting one row without making it an owner's keeps the one owner exactly when it is not the owner's row. */
  lemma {:induction false} PutKeepsOwnerIff(c: Chat, user: Uuid, p: Participant)
    requires Owned(c)
    requires if OwnedBy(c, user) then !p.role.Owner? || p.left else !p.role.Owner?
    ensures Owned(c.(members := c.members[user := p])) <==> !OwnedBy(c, user)
  {
    var o :| OwnedBy(c, o);
    var c' := c.(members := c.members[user := p]);
    if user != o {
      assert OwnedBy(c', o);
    } else {
      forall x ensures !OwnedBy(c', x) {
      }
    }
  }

  /** The two updates of a transfer leave one active owner exactly when one of the two was it and the next is active. */
  lemma {:induction false} SwapKeepsOwnerIff(t: Table, chat: nat, current: Uuid, next: Uuid)
    requires chat in t && current in t[chat].members && next in t[chat].members && current != next
    requires Owned(t[chat])
    ensures var c := t[chat];
            var c' := Swapped(t, chat, current, next)[chat];
            && (Owned(c') <==> (OwnedBy(c, current) || OwnedBy(c, next)) && !c.members[next].left)
            && (forall o :: OwnedBy(c', o) ==> o == next)
  {
    var c, c' := t[chat], Swapped(t, chat, current, next)[chat];
    var o :| OwnedBy(c, o);
    assert c'.members[next].role.Owner?;
    if (o == current || o == next) && !c.members[next].left {
      assert OwnedBy(c', next);
    }
    if o != current && o != next {
      assert c'.members[o].role.Owner?;
    }
  }

  lemma {:induction false} RotationKeepsOwner(c: Chat, keys: seq<(Uuid, string)>, o: Uuid)
    requires OwnedBy(c, o)
    ensures OwnedBy(c.(members := Rotated(c.members, keys)), o)
  {
    RotationMeaning(c.members, keys);
  }

  /** A write to another chat, or to other columns, leaves the members alone. */
  lemma {:induction false} OtherColumns(t: Table, w: Write, id: nat, chat: nat)
    requires InGroup(t, chat)
    requires Inserts(w) || w.StoreLink? || w.Close? || w.chat != chat
    ensures InGroup(Apply(t, w, id), chat) && Apply(t, w, id)[chat].members == t[chat].members
  {
  }

  lemma SameMembersOwned(c: Chat, d: Chat)
    requires c.members == d.members
    ensures Owned(c) <==> Owned(d)
  {
    assert forall o :: OwnedBy(c, o) <==> OwnedBy(d, o);
  }

  lemma {:induction false} LeaveKeepsOwnerIff(t: Table, chat: nat, user: Uuid)
    requires InGroup(t, chat) && user in t[chat].members && Owned(t[chat])
    ensures OneOwner(WithMember(t, chat, user, t[chat].members[user].(left := true)), chat) <==> !OwnedBy(t[chat], user)
  {
    var o :| OwnedBy(t[chat], o);
    assert t[chat].members[user].role.Owner? ==> user == o;
    PutKeepsOwnerIff(t[chat], user, t[chat].members[user].(left := true));
  }

  lemma {:induction false} RowWriteIff(t: Table, w: Write, id: nat, chat: nat)
    requires WriteOk(t, w) && InGroup(t, chat) && Owned(t[chat])
    requires w.Upsert? || w.Rejoin? || w.Leave? || w.SetRole? || w.StoreKeys? || w.Swap?
    requires w.chat == chat
    ensures OneOwner(Apply(t, w, id), chat) <==> SafeWrite(t, w, chat)
  {
    match w
    case Upsert(_, user, row) => PutKeepsOwnerIff(t[chat], user, row);
    case Rejoin(_, user) => PutKeepsOwnerIff(t[chat], user, Rejoined(t, chat, user));
    case Leave(_, user) =>
      if user in t[chat].members {
        LeaveKeepsOwnerIff(t, chat, user);
      }
    case SetRole(_, user, role) =>
      if IsActiveIn(t[chat].members, user) {
        PutKeepsOwnerIff(t[chat], user, t[chat].members[user].(role := role));
      }
    case StoreKeys(_, keys) =>
      var o :| OwnedBy(t[chat], o);
      RotationKeepsOwner(t[chat], keys, o);
    case Swap(_, current, next) => SwapKeepsOwnerIff(t, chat, current, next);
  }

  /** Exactly which writes leave a group with one active owner. */
  lemma {:induction false} WriteKeepsOneOwnerIff(t: Table, w: Write, id: nat, chat: nat)
    requires WriteOk(t, w) && OneOwner(t, chat)
    ensures OneOwner(Apply(t, w, id), chat) <==> SafeWrite(t, w, chat)
  {
    var t' := Apply(t, w, id);
    if chat !in t {
      if chat in t' {
        NewChatOk(t, w, id, chat);
      }
    } else if t[chat].kind.Private? {
      ApplyKeepsRows(t, w, id, chat);
    } else if Inserts(w) || w.StoreLink? || w.Close? || w.chat != chat {
      OtherColumns(t, w, id, chat);
      SameMembersOwned(t[chat], t'[chat]);
    } else {
      RowWriteIff(t, w, id, chat);
    }
  }

  ghost predicate SafeAt(acts: seq<Act>, n: nat, chat: nat)
    requires n < |acts|
  {
    var s := Run(EMPTY, acts[..n]);
    Writing(s, acts[n]).Some? ==> SafeWrite(s.chats, Writing(s, acts[n]).value, chat)
  }

  lemma {:induction false} ActKeepsOneOwnerIff(acts: seq<Act>, n: nat, chat: nat)
    requires n < |acts| && OneOwner(Run(EMPTY, acts[..n]).chats, chat)
    ensures OneOwner(Run(EMPTY, acts[..n + 1]).chats, chat) <==> SafeAt(acts, n, chat)
  {
    RunAt(acts, n);
    RunKeepsInv(acts[..n]);
    var s := Run(EMPTY, acts[..n]);
    if Writing(s, acts[n]).Some? {
      WriteKeepsOneOwnerIff(s.chats, Writing(s, acts[n]).value, acts[n].id, chat);
    }
  }

  lemma {:induction false} OwnedUpTo(acts: seq<Act>, n: nat, chat: nat)
    requires n <= |acts| && forall m: nat :: m < |acts| ==> SafeAt(acts, m, chat)
    ensures OneOwner(Run(EMPTY, acts[..n]).chats, chat)
  {
    if n > 0 {
      OwnedUpTo(acts, n - 1, chat);
      assert SafeAt(acts, n - 1, chat);
      ActKeepsOneOwnerIff(acts, n - 1, chat);
    }
  }

  /** Over all interleaved runs, a group has one active owner throughout exactly when every write is safe. */
  lemma {:induction false} OneOwnerThroughoutIff(acts: seq<Act>, chat: nat)
    ensures (forall n: nat :: n <= |acts| ==> OneOwner(Run(EMPTY, acts[..n]).chats, chat)) <==>
            (forall n: nat :: n < |acts| ==> SafeAt(acts, n, chat))
  {
    if forall n: nat :: n < |acts| ==> SafeAt(acts, n, chat) {
      forall n: nat | n <= |acts| ensures OneOwner(Run(EMPTY, acts[..n]).chats, chat) {
        OwnedUpTo(acts, n, chat);
      }
    }
    if forall n: nat :: n <= |acts| ==> OneOwner(Run(EMPTY, acts[..n]).chats, chat) {
      forall n: nat | n < |acts| ensures SafeAt(acts, n, chat) {
        assert OneOwner(Run(EMPTY, acts[..n + 1]).chats, chat);
        ActKeepsOneOwnerIff(acts, n, chat);
      }
    }
  }

  // ---- Private chats -----------------------------------------------------------------------------------

  /** An insert of a pair's chat needs the pair still to have none. */
  ghost predicate SafeInsert(t: Table, w: Write) {
    w.InsertPair? ==> PrivateChats(t, w.creator, w.other) == {}
  }

  /** Only the insert of its chat activates a pair. */
  lemma {:induction false} PairNotActivated(t: Table, w: Write, id: nat, c: nat, a: Uuid, b: Uuid)
    requires PrivateOk(t) && WriteOk(t, w) && !w.InsertPair? && PairActive(Apply(t, w, id), c, a, b)
    ensures PairActive(t, c, a, b)
  {
    if c in t {
      ApplyKeepsRows(t, w, id, c);
      ApplyOnPrivate(t, w, id, c);
    } else {
      NewChatOk(t, w, id, c);
    }
  }

  lemma {:induction false} WriteKeepsPairsIff(t: Table, w: Write, id: nat)
    requires PrivateOk(t) && PairsUnique(t) && WriteOk(t, w) && !(Inserts(w) && id in t)
    ensures PairsUnique(Apply(t, w, id)) <==> SafeInsert(t, w)
  {
    if w.InsertPair? {
      InsertKeepsUniqueIff(t, id, w.creator, w.other);
    } else {
      var t' := Apply(t, w, id);
      forall c, d, a, b | a != b && PairActive(t', c, a, b) && PairActive(t', d, a, b) ensures c == d {
        PairNotActivated(t, w, id, c, a, b);
        PairNotActivated(t, w, id, d, a, b);
      }
    }
  }

  ghost predicate SafeInsertAt(acts: seq<Act>, n: nat)
    requires n < |acts|
  {
    var s := Run(EMPTY, acts[..n]);
    Writing(s, acts[n]).Some? ==> SafeInsert(s.chats, Writing(s, acts[n]).value)
  }

  lemma {:induction false} ActKeepsPairsIff(acts: seq<Act>, n: nat)
    requires n < |acts| && PairsUnique(Run(EMPTY, acts[..n]).chats)
    ensures PairsUnique(Run(EMPTY, acts[..n + 1]).chats) <==> SafeInsertAt(acts, n)
  {
    RunAt(acts, n);
    RunKeepsInv(acts[..n]);
    var s := Run(EMPTY, acts[..n]);
    if Writing(s, acts[n]).Some? {
      WriteKeepsPairsIff(s.chats, Writing(s, acts[n]).value, acts[n].id);
    }
  }

  lemma {:induction false} PairsUpTo(acts: seq<Act>, n: nat)
    requires n <= |acts| && forall m: nat :: m < |acts| ==> SafeInsertAt(acts, m)
    ensures PairsUnique(Run(EMPTY, acts[..n]).chats)
  {
    if n > 0 {
      var m := n - 1;
      PairsUpTo(acts, m);
      ActKeepsPairsIff(acts, m);
    }
  }

  /** Over all interleaved runs, pairs have one private chat throughout exactly when every insert finds its pair without one. */
  lemma {:induction false} PairsUniqueThroughoutIff(acts: seq<Act>)
    ensures (forall n: nat :: n <= |acts| ==> PairsUnique(Run(EMPTY, acts[..n]).chats)) <==>
            (forall n: nat :: n < |acts| ==> SafeInsertAt(acts, n))
  {
    if forall n: nat :: n < |acts| ==> SafeInsertAt(acts, n) {
      forall n: nat | n <= |acts| ensures PairsUnique(Run(EMPTY, acts[..n]).chats) {
        PairsUpTo(acts, n);
      }
    }
    if forall n: nat :: n <= |acts| ==> PairsUnique(Run(EMPTY, acts[..n]).chats) {
      forall n: nat | n < |acts| ensures SafeInsertAt(acts, n) {
        assert PairsUnique(Run(EMPTY, acts[..n + 1]).chats);
        ActKeepsPairsIff(acts, n);
      }
    }
  }

  lemma {:induction false} NextKeepsDeparted(s: State, a: Act, chat: nat, u: Uuid)
    requires Inv(s) && DepartedPrivate(s.chats, chat, u)
    ensures DepartedPrivate(Next(s, a).chats, chat, u)
  {
    if Writing(s, a).Some? {
      ApplyOnPrivate(s.chats, Writing(s, a).value, a.id, chat);
    }
  }

  /** Interleaving or not, a member who has left a private chat never becomes active in it again. */
  lemma {:induction false} DepartureStaysFinal(s: State, acts: seq<Act>, chat: nat, u: Uuid)
    requires Inv(s) && DepartedPrivate(s.chats, chat, u)
    ensures Inv(Run(s, acts)) && DepartedPrivate(Run(s, acts).chats, chat, u)
  {
    if acts != [] {
      DepartureStaysFinal(s, acts[..|acts| - 1], chat, u);
      NextKeepsInv(Run(s, acts[..|acts| - 1]), acts[|acts| - 1]);
      NextKeepsDeparted(Run(s, acts[..|acts| - 1]), acts[|acts| - 1], chat, u);
    }
  }

  // ---- Runs that break it ----------------------------------------------------------------------------------

  /** Two transfers by one owner that both pass their checks before either writes leave two active owners. */
  lemma {:induction false} ConcurrentTransfers(t: Table, chat: nat, o: Uuid, a: Uuid, b: Uuid)
    requires InGroup(t, chat) && OwnedBy(t[chat], o) && a != o && b != o && a != b
    requires IsActiveIn(t[chat].members, a) && IsActiveIn(t[chat].members, b)
    ensures Check(t, Transfer(chat, o, a)) == Some(Swap(chat, o, a)) && Check(t, Transfer(chat, o, b)) == Some(Swap(chat, o, b))
    ensures var t' := Apply(Apply(t, Swap(chat, o, a), 0), Swap(chat, o, b), 0);
            chat in t' && RoleIn(t', chat, a) == Some(Owner) && RoleIn(t', chat, b) == Some(Owner)
  {
  }

  /** A removal checked before a transfer to its target, and written after it, leaves no active owner. */
  lemma {:induction false} RemovalOfNewOwner(t: Table, chat: nat, o: Uuid, a: Uuid)
    requires InGroup(t, chat) && OwnedBy(t[chat], o) && a != o && IsActiveIn(t[chat].members, a)
    ensures Check(t, Remove(chat, o, a)) == Some(Leave(chat, a)) && Check(t, Transfer(chat, o, a)) == Some(Swap(chat, o, a))
    ensures var t' := Apply(Apply(t, Swap(chat, o, a), 0), Leave(chat, a), 0);
            InGroup(t', chat) && t'[chat].members[a].left && forall u :: RoleIn(t', chat, u) != Some(Owner)
  {
  }

  lemma {:induction false} RunSnoc(s: State, acts: seq<Act>, a: Act)
    ensures Run(s, acts + [a]) == Next(Run(s, acts), a)
  {
    assert (acts + [a])[..|acts|] == acts;
  }

  lemma {:induction false} RunTwo(s: State, a: Act, b: Act)
    ensures Run(s, [a, b]) == Next(Next(s, a), b)
  {
    RunSnoc(s, [], a);
    RunSnoc(s, [a], b);
    assert [] + [a] == [a] && [a] + [b] == [a, b];
  }

  lemma {:induction false} RunAppend(s: State, acts: seq<Act>, more: seq<Act>)
    ensures Run(s, acts + more) == Run(Run(s, acts), more)
  {
    if more == [] {
      assert acts + more == acts;
    } else {
      var n := |more| - 1;
      RunAppend(s, acts, more[..n]);
      assert (acts + more)[..|acts + more| - 1] == acts + more[..n];
    }
  }

  lemma {:induction false} RunPair(acts: seq<Act>, s: State, a: Act, b: Act)
    requires Run(EMPTY, acts) == s
    ensures Run(EMPTY, acts + [a, b]) == Next(Next(s, a), b)
  {
    RunAppend(EMPTY, acts, [a, b]);
    RunTwo(s, a, b);
  }

  lemma {:induction false} GroupOfThree()
    ensures var t := CreateGroupChat(map[], 1, 7, [8, 9]);
            && Run(EMPTY, [Begin(0, CreateGroup(1, 7, [8, 9])), Finish(0, 1)]) == State(t, map[])
            && 1 in t && t[1].kind.Group? && OwnedBy(t[1], 7)
            && IsActiveIn(t[1].members, 8) && IsActiveIn(t[1].members, 9)
  {
    RunTwo(EMPTY, Begin(0, CreateGroup(1, 7, [8, 9])), Finish(0, 1));
    assert 8 in [8, 9] && 9 in [8, 9];
  }

  lemma {:induction false} BothBegin(t: Table)
    requires Check(t, Transfer(1, 7, 8)) == Some(Swap(1, 7, 8)) && Check(t, Transfer(1, 7, 9)) == Some(Swap(1, 7, 9))
    ensures Next(Next(State(t, map[]), Begin(0, Transfer(1, 7, 8))), Begin(1, Transfer(1, 7, 9))) ==
            State(t, map[0 := Swap(1, 7, 8), 1 := Swap(1, 7, 9)])
  {
  }

  /** From the empty tables: user 7 transfers group 1 to 8 and to 9 at once. */
  lemma {:induction false} TwoOwnersAreReachable()
    ensures var acts := [Begin(0, CreateGroup(1, 7, [8, 9])), Finish(0, 1)]
                        + [Begin(0, Transfer(1, 7, 8)), Begin(1, Transfer(1, 7, 9))] + [Finish(0, 0), Finish(1, 0)];
            var t := Run(EMPTY, acts).chats;
            RoleIn(t, 1, 8) == Some(Owner) && RoleIn(t, 1, 9) == Some(Owner)
  {
    var acts1 := [Begin(0, CreateGroup(1, 7, [8, 9])), Finish(0, 1)];
    var t := CreateGroupChat(map[], 1, 7, [8, 9]);
    var s2 := State(t, map[0 := Swap(1, 7, 8), 1 := Swap(1, 7, 9)]);
    GroupOfThree();
    ConcurrentTransfers(t, 1, 7, 8, 9);
    BothBegin(t);
    RunPair(acts1, State(t, map[]), Begin(0, Transfer(1, 7, 8)), Begin(1, Transfer(1, 7, 9)));
    RunPair(acts1 + [Begin(0, Transfer(1, 7, 8)), Begin(1, Transfer(1, 7, 9))], s2, Finish(0, 0), Finish(1, 0));
  }

  lemma {:induction false} BothSearch()
    ensures Next(Next(EMPTY, Begin(0, CreatePrivate(1, 7, 8))), Begin(1, CreatePrivate(2, 8, 7))) ==
            State(map[], map[0 := InsertPair(7, 8), 1 := InsertPair(8, 7)])
  {
    assert PrivateChats(map[], 7, 8) == {} && PrivateChats(map[], 8, 7) == {};
  }

  lemma {:induction false} BothInsert()
    ensures var s := State(map[], map[0 := InsertPair(7, 8), 1 := InsertPair(8, 7)]);
            var t := Next(Next(s, Finish(0, 1)), Finish(1, 2)).chats;
            PairActive(t, 1, 7, 8) && PairActive(t, 2, 7, 8)
  {
  }

  /** From the empty tables: users 7 and 8 each open a chat with the other at once. */
  lemma {:induction false} TwoPrivateChatsAreReachable()
    ensures var acts := [Begin(0, CreatePrivate(1, 7, 8)), Begin(1, CreatePrivate(2, 8, 7))] + [Finish(0, 1), Finish(1, 2)];
            var t := Run(EMPTY, acts).chats;
            PairActive(t, 1, 7, 8) && PairActive(t, 2, 7, 8)
  {
    var acts := [Begin(0, CreatePrivate(1, 7, 8)), Begin(1, CreatePrivate(2, 8, 7))];
    BothSearch();
    RunTwo(EMPTY, acts[0], acts[1]);
    RunPair(acts, State(map[], map[0 := InsertPair(7, 8), 1 := InsertPair(8, 7)]), Finish(0, 1), Finish(1, 2));
    BothInsert();
  }
}
