/**
 What every run of the chat methods keeps: ownership of groups, and uniqueness and
 finality of private chats.
 */
module ChatRuns {
  import opened Prelude
  import opened KeyRotation
  import opened Chats

  datatype Event =
    | CreatePrivate(id: nat, creator: Uuid, other: Uuid)
    | CreateGroup(id: nat, creator: Uuid, participants: seq<Uuid>)
    | Add(chat: nat, actor: Uuid, user: Uuid, key: Option<string>)
    | Remove(chat: nat, actor: Uuid, target: Uuid)
    | ChangeRole(chat: nat, actor: Uuid, target: Uuid, newRole: Role)
    | Join(slug: string, user: Uuid)
    | JoinFound(chat: nat, user: Uuid)
    | SetLink(chat: nat, actor: Uuid, wanted: Option<string>, random: string)
    | RotateKey(chat: nat, actor: Uuid, keys: seq<(Uuid, string)>)
    | Transfer(chat: nat, current: Uuid, next: Uuid)
    | Delete(user: Uuid, chat: nat)

  /**
   Chat ids are fresh random UUIDs. `JoinFound` is the second half of a join whose lookup
   came earlier; a chat found then still has a link, though not always the same one.
   */
  function Step(t: Table, e: Event): Table {
    match e
    case CreatePrivate(id, creator, other) => if id in t then t else CreatePrivateChat(t, id, creator, other).0
    case CreateGroup(id, creator, participants) => if id in t then t else CreateGroupChat(t, id, creator, participants)
    case Add(chat, actor, user, key) => AddParticipant(t, chat, actor, user, key).0
    case Remove(chat, actor, target) => RemoveParticipant(t, chat, actor, target).0
    case ChangeRole(chat, actor, target, newRole) => UpdateParticipantRole(t, chat, actor, target, newRole).0
    case Join(slug, user) => JoinBySlug(t, slug, user).0
    case JoinFound(chat, user) => if chat in t && t[chat].inviteLink.Some? then JoinChat(t, chat, user).0 else t
    case SetLink(chat, actor, wanted, random) => SetInviteLink(t, chat, actor, wanted, random).0
    case RotateKey(chat, actor, keys) => RotateGroupKey(t, chat, actor, keys).0
    case Transfer(chat, current, next) => TransferOwnership(t, chat, current, next).0
    case Delete(user, chat) => DeleteChat(t, user, chat).0
  }

  function Run(es: seq<Event>): Table {
    if es == [] then map[] else Step(Run(es[..|es| - 1]), es[|es| - 1])
  }

  // ---- Ownership -------------------------------------------------------------------------------

  /** The successful transfers of a chat, in order, each from the acting owner to the next. */
  function Transfers(es: seq<Event>, chat: nat): seq<(Uuid, Uuid)> {
    if es == [] then [] else
      var n := |es| - 1;
      var before := Transfers(es[..n], chat);
      match es[n]
      case Transfer(c, current, next) =>
        if c == chat && TransferOwnership(Run(es[..n]), c, current, next).1.Ok? then before + [(current, next)] else before
      case _ => before
  }

  /** Where a chain of transfers that starts at the creator ends. */
  function ChainEnd(creator: Uuid, transfers: seq<(Uuid, Uuid)>): Uuid {
    if transfers == [] then creator else transfers[|transfers| - 1].1
  }

  /** Each transfer starts where the one before it ended. */
  ghost predicate IsChain(creator: Uuid, transfers: seq<(Uuid, Uuid)>) {
    forall i :: 0 <= i < |transfers| ==> transfers[i].0 == ChainEnd(creator, transfers[..i])
  }

  /** `o` is the one owner row of the chat, and it is active. */
  ghost predicate OwnedBy(c: Chat, o: Uuid) {
    && o in c.members && c.members[o].role.Owner? && !c.members[o].left
    && forall u :: u in c.members && c.members[u].role.Owner? ==> u == o
  }

  /** Private chats have two plain members, no link, and are never deleted as a whole. */
  ghost predicate PlainPair(c: Chat) {
    && |c.members| == 2
    && c.inviteLink.None? && !c.deleted
    && forall u :: u in c.members ==> c.members[u].role.Member?
  }

  ghost predicate Shape(c: Chat, o: Uuid) {
    match c.kind
    case Private => PlainPair(c)
    case Group => OwnedBy(c, o)
  }

  /** The owner after a step. */
  ghost function NextOwner(t: Table, e: Event, chat: nat, o: Uuid): Uuid {
    if e.Transfer? && e.chat == chat && TransferOwnership(t, chat, e.current, e.next).1.Ok? then e.next
    else if e.CreateGroup? && e.id == chat && chat !in t then e.creator
    else o
  }

  /** Each method keeps the owner of a group, except that a transfer moves it. */
  lemma {:induction false} StepKeepsShape(t: Table, e: Event, chat: nat, o: Uuid)
    requires chat in t ==> Shape(t[chat], o)
    ensures chat in t ==> chat in Step(t, e)
    ensures chat in Step(t, e) ==> Shape(Step(t, e)[chat], NextOwner(t, e, chat, o))
  {
    if chat in t {
      match t[chat].kind
      case Private => PrivateStep(t, e, chat);
      case Group => GroupStep(t, e, chat, o);
    } else if chat in Step(t, e) {
      NewChatShape(t, e, chat);
    }
  }

  lemma {:induction false} NewChatShape(t: Table, e: Event, chat: nat)
    requires chat !in t && chat in Step(t, e)
    ensures e.CreatePrivate? || e.CreateGroup?
    ensures forall o :: Shape(Step(t, e)[chat], NextOwner(t, e, chat, o))
  {
    var c := Step(t, e)[chat];
    if e.CreatePrivate? {
      assert c.members.Keys == {e.creator, e.other};
      assert |c.members| == |c.members.Keys|;
    }
  }

  /** In a private chat everyone is a plain member, so all a step can do is let a member leave. */
  lemma {:induction false} PrivateStep(t: Table, e: Event, chat: nat)
    requires chat in t && t[chat].kind.Private? && PlainPair(t[chat])
    ensures var t' := Step(t, e);
            && chat in t' && t'[chat].kind.Private? && PlainPair(t'[chat])
            && t'[chat].members.Keys == t[chat].members.Keys
            && forall u :: u in t[chat].members && t[chat].members[u].left ==> t'[chat].members[u].left
  {
    var t' := Step(t, e);
    if t'[chat] != t[chat] {
      match e
      case Remove(_, _, target) => LeaveKeeps(t, chat, target);
      case Delete(user, _) => LeaveKeeps(t, chat, user);
      case _ =>
    }
  }

  lemma {:induction false} LeaveKeeps(t: Table, chat: nat, user: Uuid)
    requires chat in t && user in t[chat].members
    ensures var t' := WithMember(t, chat, user, t[chat].members[user].(left := true));
            && t'[chat].members.Keys == t[chat].members.Keys
            && |t'[chat].members| == |t[chat].members|
  {
    var m := t[chat].members;
    var m' := m[user := m[user].(left := true)];
    assert m'.Keys == m.Keys;
    assert |m'| == |m'.Keys| && |m| == |m.Keys|;
  }

  lemma {:induction false} GroupStep(t: Table, e: Event, chat: nat, o: Uuid)
    requires chat in t && t[chat].kind.Group? && OwnedBy(t[chat], o)
    ensures var t' := Step(t, e);
            && chat in t' && t'[chat].kind.Group? && t'[chat].createdBy == t[chat].createdBy
            && OwnedBy(t'[chat], NextOwner(t, e, chat, o))
  {
    match e
    case RotateKey(c, _, keys) =>
      if c == chat {
        RotationMeaning(t[chat].members, keys);
      }
    case _ =>
  }

  /**
   Over all runs every group has exactly one owner row, that row is active, and its
   user is the end of the chain of transfers that starts at the creator.
   */
  lemma {:induction false} EveryGroupHasItsOwner(es: seq<Event>, chat: nat)
    requires chat in Run(es) && Run(es)[chat].kind.Group?
    ensures var c := Run(es)[chat];
            && IsChain(c.createdBy, Transfers(es, chat))
            && OwnedBy(c, ChainEnd(c.createdBy, Transfers(es, chat)))
            && (forall u :: u in c.members && c.members[u].left ==> !c.members[u].role.Owner?)
  {
    OwnerChain(es, chat);
  }

  ghost predicate OnChain(t: Table, chat: nat, transfers: seq<(Uuid, Uuid)>) {
    if chat !in t then transfers == []
    else IsChain(t[chat].createdBy, transfers) && Shape(t[chat], ChainEnd(t[chat].createdBy, transfers))
  }

  lemma {:induction false} OwnerChain(es: seq<Event>, chat: nat)
    ensures OnChain(Run(es), chat, Transfers(es, chat))
  {
    if es != [] {
      var n := |es| - 1;
      OwnerChain(es[..n], chat);
      ChainStep(Run(es[..n]), es[n], chat, Transfers(es[..n], chat));
    }
  }

  lemma {:induction false} ChainStep(t: Table, e: Event, chat: nat, before: seq<(Uuid, Uuid)>)
    requires OnChain(t, chat, before)
    ensures var moved := e.Transfer? && e.chat == chat && TransferOwnership(t, chat, e.current, e.next).1.Ok?;
            OnChain(Step(t, e), chat, if moved then before + [(e.current, e.next)] else before)
  {
    var creator := if chat in t then t[chat].createdBy else 0;
    var o := ChainEnd(creator, before);
    StepKeepsShape(t, e, chat, o);
    if chat in t {
      CreatorKept(t, e, chat);
      if e.Transfer? && e.chat == chat && TransferOwnership(t, chat, e.current, e.next).1.Ok? {
        OnlyOwnerTransfers(t, chat, e.current, e.next, o);
        ChainSnoc(creator, before, (e.current, e.next));
      }
    }
  }

  lemma {:induction false} ChainSnoc(creator: Uuid, transfers: seq<(Uuid, Uuid)>, last: (Uuid, Uuid))
    requires IsChain(creator, transfers) && last.0 == ChainEnd(creator, transfers)
    ensures IsChain(creator, transfers + [last])
  {
    var all := transfers + [last];
    forall i | 0 <= i < |all| ensures all[i].0 == ChainEnd(creator, all[..i]) {
      assert all[..i] == transfers[..i];
      assert transfers[..|transfers|] == transfers;
    }
  }

  lemma OnlyOwnerTransfers(t: Table, chat: nat, current: Uuid, next: Uuid, o: Uuid)
    requires chat in t && Shape(t[chat], o)
    requires TransferOwnership(t, chat, current, next).1.Ok?
    ensures t[chat].kind.Group? && current == o
  {
  }

  lemma {:induction false} CreatorKept(t: Table, e: Event, chat: nat)
    requires chat in t
    ensures chat in Step(t, e) && Step(t, e)[chat].createdBy == t[chat].createdBy && Step(t, e)[chat].kind == t[chat].kind
  {
  }

  // ---- Rank ------------------------------------------------------------------------------------

  /** The acting user of an event that can change another member's row. */
  ghost predicate ActsOn(e: Event, chat: nat, actor: Uuid, target: Uuid) {
    match e
    case Remove(c, a, u) => c == chat && a == actor && u == target
    case ChangeRole(c, a, u, _) => c == chat && a == actor && u == target
    case _ => false
  }

  /**
   An active member's role or membership is changed only by the member leaving, by an owner's
   transfer, or by an active member who outranks both the old and the new role.
   */
  lemma {:induction false} OnlyHigherRankChanges(t: Table, e: Event, chat: nat, u: Uuid)
    requires RoleIn(t, chat, u).Some? && RoleIn(Step(t, e), chat, u) != RoleIn(t, chat, u)
    ensures var before, after := RoleIn(t, chat, u).value, RoleIn(Step(t, e), chat, u);
            || ((e == Delete(u, chat) || e == Remove(chat, u, u)) && after.None?)
            || (e.Transfer? && e.chat == chat && RoleIn(t, chat, e.current) == Some(Owner)
                && ((u == e.next && after == Some(Owner)) || (u == e.current && after == Some(Admin))))
            || ((e.Remove? || e.ChangeRole?) && ActsOn(e, chat, e.actor, u) && RoleIn(t, chat, e.actor).Some?
                && Level(RoleIn(t, chat, e.actor).value) > Level(before)
                && (after.Some? ==> Level(RoleIn(t, chat, e.actor).value) > Level(after.value)))
  {
    match e
    case RotateKey(c, _, keys) =>
      if c == chat {
        RotationMeaning(t[chat].members, keys);
      }
    case _ =>
  }

  /** Event `n` makes `u` an admin by the word of the owner of the moment. */
  ghost predicate Appoints(es: seq<Event>, n: nat, chat: nat, u: Uuid)
    requires n < |es|
  {
    && chat in Run(es[..n])
    && var o := ChainEnd(Run(es[..n])[chat].createdBy, Transfers(es[..n], chat));
       es[n] == ChangeRole(chat, o, u, Admin) || (es[n].Transfer? && es[n].chat == chat && es[n].current == u && u == o)
  }

  lemma {:induction false} AppointedByOwner(t: Table, e: Event, chat: nat, u: Uuid, o: Uuid)
    requires chat in t && t[chat].kind.Group? && OwnedBy(t[chat], o)
    requires RoleIn(Step(t, e), chat, u) == Some(Admin) && RoleIn(t, chat, u) != Some(Admin)
    ensures e == ChangeRole(chat, o, u, Admin) || (e.Transfer? && e.chat == chat && e.current == u && u == o)
  {
    match e
    case RotateKey(c, _, keys) =>
      if c == chat {
        RotationMeaning(t[chat].members, keys);
      }
    case _ =>
  }

  lemma {:induction false} NewChatHasNoAdmin(t: Table, e: Event, chat: nat, u: Uuid)
    requires chat !in t
    ensures RoleIn(Step(t, e), chat, u) != Some(Admin)
  {
  }

  lemma {:induction false} PrefixAppoints(es: seq<Event>, m: nat, n: nat, chat: nat, u: Uuid)
    requires n < m <= |es| && Appoints(es[..m], n, chat, u)
    ensures Appoints(es, n, chat, u)
  {
    assert es[..m][..n] == es[..n];
  }

  lemma {:induction false} LastAppoints(es: seq<Event>, chat: nat, u: Uuid)
    requires es != []
    requires var t := Run(es[..|es| - 1]);
             chat in t && t[chat].kind.Group? && RoleIn(t, chat, u) != Some(Admin)
    requires RoleIn(Run(es), chat, u) == Some(Admin)
    ensures Appoints(es, |es| - 1, chat, u)
  {
    var m := |es| - 1;
    var t := Run(es[..m]);
    OwnerChain(es[..m], chat);
    AppointedByOwner(t, es[m], chat, u, ChainEnd(t[chat].createdBy, Transfers(es[..m], chat)));
  }

  /** Every admin of a group was made one by its owner, or owned it and handed it over. */
  lemma {:induction false} EveryAdminWasAppointed(es: seq<Event>, chat: nat, u: Uuid)
    requires chat in Run(es) && Run(es)[chat].kind.Group?
    requires RoleIn(Run(es), chat, u) == Some(Admin)
    ensures exists n :: 0 <= n < |es| && Appoints(es, n, chat, u)
  {
    var m := |es| - 1;
    var t := Run(es[..m]);
    if chat !in t {
      NewChatHasNoAdmin(t, es[m], chat, u);
    } else {
      CreatorKept(t, es[m], chat);
      if RoleIn(t, chat, u) == Some(Admin) {
        EveryAdminWasAppointed(es[..m], chat, u);
        var n :| 0 <= n < m && Appoints(es[..m], n, chat, u);
        PrefixAppoints(es, m, n, chat, u);
      } else {
        LastAppoints(es, chat, u);
      }
    }
  }

  // ---- Permissions -----------------------------------------------------------------------------

  ghost predicate IsOneOf(r: Option<Role>, roles: set<Role>) {
    r.Some? && r.value in roles
  }

  /** Who may add whom, and with what row. */
  lemma {:induction false} AddMeaning(t: Table, chat: nat, actor: Uuid, user: Uuid, key: Option<string>)
    ensures var (t', r) := AddParticipant(t, chat, actor, user, key);
            var may := IsOneOf(RoleIn(t, chat, actor), {Admin, Owner});
            && (r == Err(Unauthorized) <==> !may)
            && (r == Err(NotFound) <==> may && t[chat].deleted)
            && (r == Err(Validation) <==> may && !t[chat].deleted && (t[chat].kind.Private? || RoleIn(t, chat, user).Some?))
            && (r.Ok? ==> t' == WithMember(t, chat, user, Participant(Member, key, Some(actor), false)) && r.value == t'[chat].members[user])
            && (r.Err? ==> t' == t)
            && (r != Err(AlreadyExists))
  {
  }

  /** The roles an actor outranks. */
  function Below(r: Role): set<Role> {
    match r
    case Member => {}
    case Moderator => {Member}
    case Admin => {Member, Moderator}
    case Owner => {Member, Moderator, Admin}
  }

  /** Who may remove whom: anyone but the owner themselves, and those they outrank; the row is kept as a departed one. */
  lemma {:induction false} RemoveMeaning(t: Table, chat: nat, actor: Uuid, target: Uuid)
    ensures var (t', r) := RemoveParticipant(t, chat, actor, target);
            var a, b := RoleIn(t, chat, actor), RoleIn(t, chat, target);
            && (r == Err(Unauthorized) <==> a.None? || (b.Some? && actor != target && b.value !in Below(a.value)))
            && (r == Err(NotFound) <==> a.Some? && b.None?)
            && (r == Err(Validation) <==> actor == target && a == Some(Owner))
            && (r.Ok? ==> r == Ok(true) && t' == WithMember(t, chat, target, t[chat].members[target].(left := true)))
            && (r.Err? ==> t' == t && r != Err(AlreadyExists))
  {
  }

  /** Who may give whom which role; only the role changes. */
  lemma {:induction false} ChangeRoleMeaning(t: Table, chat: nat, actor: Uuid, target: Uuid, newRole: Role)
    ensures var (t', r) := UpdateParticipantRole(t, chat, actor, target, newRole);
            var a, b := RoleIn(t, chat, actor), RoleIn(t, chat, target);
            && (r.Ok? <==> a.Some? && b.Some? && newRole != Owner && b.value in Below(a.value) && newRole in Below(a.value))
            && (r == Err(Validation) <==> newRole == Owner)
            && (r == Err(NotFound) <==> newRole != Owner && a.Some? && b.None?)
            && (r.Ok? ==> t' == WithMember(t, chat, target, t[chat].members[target].(role := newRole)) && r.value == t'[chat].members[target])
            && (r.Err? ==> t' == t && r != Err(AlreadyExists))
  {
  }

  /** Who may store which link. */
  lemma {:induction false} SetLinkMeaning(t: Table, chat: nat, actor: Uuid, slug: Option<string>, random: string)
    ensures var (t', r) := SetInviteLink(t, chat, actor, slug, random);
            var link := if slug == None || slug == Some("") then random else slug.value;
            var may := IsOneOf(RoleIn(t, chat, actor), {Admin, Owner});
            var taken := exists c :: c in t && c != chat && t[c].inviteLink == Some(link);
            && (r == Err(Unauthorized) <==> !may)
            && (r == Err(Validation) <==> may && t[chat].kind.Private?)
            && (r == Err(AlreadyExists) <==> may && !t[chat].kind.Private? && taken)
            && (r.Ok? ==> r == Ok(link) && t' == t[chat := t[chat].(inviteLink := Some(link))])
            && (r.Err? ==> t' == t && r != Err(NotFound))
  {
  }

  /** Who may rotate the keys, and what the count and the new rows are. */
  lemma {:induction false} RotateMeaning(t: Table, chat: nat, actor: Uuid, keys: seq<(Uuid, string)>)
    ensures var (t', r) := RotateGroupKey(t, chat, actor, keys);
            var may := IsOneOf(RoleIn(t, chat, actor), {Admin, Owner});
            && (r == Err(Validation) <==> keys == [])
            && (r == Err(Unauthorized) <==> keys != [] && !may)
            && (r.Ok? <==> keys != [] && may)
            && (r.Err? ==> t' == t)
            && (r.Ok? ==> t'.Keys == t.Keys && r.value == |set i | 0 <= i < |keys| && RoleIn(t, chat, keys[i].0).Some?|
                          && (forall c :: c in t && c != chat ==> t'[c] == t[c])
                          && t'[chat].(members := t[chat].members) == t[chat] && t'[chat].members.Keys == t[chat].members.Keys)
    ensures forall u :: RotateGroupKey(t, chat, actor, keys).1.Ok? && u in t[chat].members ==>
              RotateGroupKey(t, chat, actor, keys).0[chat].members[u] ==
              if RoleIn(t, chat, u).Some? && LastListed(keys, u).Some?
              then t[chat].members[u].(key := LastListed(keys, u)) else t[chat].members[u]
  {
    if chat in t {
      RotationMeaning(t[chat].members, keys);
      assert Hits(t[chat].members, keys) == set i | 0 <= i < |keys| && RoleIn(t, chat, keys[i].0).Some?;
    }
  }

  /** Who may hand ownership to whom, and what becomes of the two rows. */
  lemma {:induction false} TransferMeaning(t: Table, chat: nat, current: Uuid, next: Uuid)
    ensures var (t', r) := TransferOwnership(t, chat, current, next);
            && (r == Err(Validation) <==> next == current)
            && (r == Err(Unauthorized) <==> next != current && RoleIn(t, chat, current) != Some(Owner))
            && (r == Err(NotFound) <==> next != current && RoleIn(t, chat, current) == Some(Owner) && RoleIn(t, chat, next) == None)
            && (r.Err? ==> t' == t && r != Err(AlreadyExists))
            && (r.Ok? ==> var m := t[chat].members;
                          t' == t[chat := t[chat].(members := m[current := m[current].(role := Admin)][next := m[next].(role := Owner)])])
  {
  }

  /** Leaving, and what deleting a chat means for its owner. */
  lemma {:induction false} DeleteMeaning(t: Table, user: Uuid, chat: nat)
    ensures var (t', r) := DeleteChat(t, user, chat);
            && (r.Ok? <==> RoleIn(t, chat, user).Some? && !t[chat].deleted)
            && (r.Err? ==> t' == t && r == Err(NotFound))
            && (r.Ok? ==> t' == if t[chat].kind == Group && RoleIn(t, chat, user) == Some(Owner)
                                then t[chat := t[chat].(deleted := true)]
                                else WithMember(t, chat, user, t[chat].members[user].(left := true)))
  {
  }

  /** A join by a link gives a plain membership and keeps the key of an earlier one. */
  lemma {:induction false} JoinMeaning(t: Table, chat: nat, user: Uuid)
    requires chat in t
    ensures var (t', r) := JoinChat(t, chat, user);
            && (r.Ok? <==> RoleIn(t, chat, user).None?)
            && (r.Err? ==> t' == t && r == Err(Validation))
            && (r.Ok? ==> RoleIn(t', chat, user) == Some(Member) && r.value == t'[chat].members[user]
                          && t' == WithMember(t, chat, user, r.value)
                          && r.value.key == (if user in t[chat].members then t[chat].members[user].key else None)
                          && r.value.addedBy == (if user in t[chat].members then t[chat].members[user].addedBy else None))
  {
  }

  /** A new group: its creator owns it, everyone else listed is a plain member added by the creator. */
  lemma {:induction false} NewGroupMeaning(t: Table, id: nat, creator: Uuid, participants: seq<Uuid>)
    ensures var c := CreateGroupChat(t, id, creator, participants)[id];
            && CreateGroupChat(t, id, creator, participants) == t[id := c]
            && c.kind == Group && c.createdBy == creator && !c.deleted && c.inviteLink == None
            && (forall u :: u in c.members <==> u == creator || u in participants)
            && (forall u :: u in c.members ==>
                  c.members[u] == Participant(if u == creator then Owner else Member, None, Some(creator), false))
  {
  }

  /** A new private chat: two plain members added by the creator. */
  lemma {:induction false} NewPairMeaning(t: Table, id: nat, creator: Uuid, other: Uuid)
    requires id !in t
    ensures var (t', r) := CreatePrivateChat(t, id, creator, other);
            && (r.Err? <==> creator == other) && (r.Err? ==> r == Err(Validation) && t' == t)
            && (creator != other && PrivateChats(t, creator, other) == {} ==>
                  r == Ok(id) && t'.Keys == t.Keys + {id} && (forall c :: c in t ==> t'[c] == t[c])
                  && t'[id].createdBy == creator && t'[id].members.Keys == {creator, other}
                  && t'[id].members[creator] == Participant(Member, None, Some(creator), false)
                  && t'[id].members[other] == Participant(Member, None, Some(creator), false))
  {
  }

  /** A user becomes active in an existing chat only when an admin or the owner adds them, or by its link, and as a plain member. */
  lemma {:induction false} NewMembersAreAddedOrJoin(t: Table, e: Event, chat: nat, u: Uuid)
    requires chat in t && RoleIn(t, chat, u).None? && RoleIn(Step(t, e), chat, u).Some?
    ensures RoleIn(Step(t, e), chat, u) == Some(Member)
    ensures || (e.Add? && e.chat == chat && e.user == u && IsOneOf(RoleIn(t, chat, e.actor), {Admin, Owner}))
            || (e.Join? && e.user == u && t[chat].inviteLink == Some(e.slug) && !t[chat].deleted)
            || (e.JoinFound? && e.chat == chat && e.user == u && t[chat].inviteLink.Some?)
  {
    match e
    case RotateKey(c, _, keys) =>
      if c == chat {
        RotationMeaning(t[chat].members, keys);
      }
    case _ =>
  }

  // ---- Private chats ----------------------------------------------------------------------------

  ghost predicate PairActive(t: Table, chat: nat, a: Uuid, b: Uuid) {
    chat in PrivateChats(t, a, b)
  }

  /** At most one private chat has both users active. */
  ghost predicate PairsUnique(t: Table) {
    forall c, d, a, b :: a != b && PairActive(t, c, a, b) && PairActive(t, d, a, b) ==> c == d
  }

  ghost predicate PrivateOk(t: Table) {
    forall c :: c in t && t[c].kind.Private? ==> PlainPair(t[c])
  }

  /** A step activates a pair only by creating its chat, and then no other chat of the pair is active. */
  lemma {:induction false} PairStep(t: Table, e: Event, c: nat, a: Uuid, b: Uuid)
    requires PrivateOk(t) && a != b && PairActive(Step(t, e), c, a, b) && !PairActive(t, c, a, b)
    ensures e.CreatePrivate? && c == e.id && c !in t && PrivateChats(t, a, b) == {}
  {
    if c in t {
      CreatorKept(t, e, c);
      PrivateStep(t, e, c);
    } else {
      NewChatShape(t, e, c);
      PairIsSymmetric(t, a, b);
    }
  }

  lemma {:induction false} PairIsSymmetric(t: Table, a: Uuid, b: Uuid)
    ensures PrivateChats(t, a, b) == PrivateChats(t, b, a)
  {
  }

  lemma {:induction false} PairsStayUnique(t: Table, e: Event)
    requires PairsUnique(t) && PrivateOk(t)
    ensures PairsUnique(Step(t, e))
  {
    var t' := Step(t, e);
    forall c, d, a, b | a != b && PairActive(t', c, a, b) && PairActive(t', d, a, b) ensures c == d {
      if !PairActive(t, c, a, b) {
        PairStep(t, e, c, a, b);
      }
      if !PairActive(t, d, a, b) {
        PairStep(t, e, d, a, b);
      }
    }
  }

  lemma {:induction false} PrivateStaysPlain(t: Table, e: Event)
    requires PrivateOk(t)
    ensures PrivateOk(Step(t, e))
  {
    var t' := Step(t, e);
    forall c | c in t' && t'[c].kind.Private? ensures PlainPair(t'[c]) {
      if c in t {
        CreatorKept(t, e, c);
        PrivateStep(t, e, c);
      } else {
        NewChatShape(t, e, c);
      }
    }
  }

  /** Over all runs two users share at most one private chat in which both are active. */
  lemma {:induction false} AtMostOnePrivateChat(es: seq<Event>)
    ensures PairsUnique(Run(es)) && PrivateOk(Run(es))
  {
    if es != [] {
      AtMostOnePrivateChat(es[..|es| - 1]);
      PairsStayUnique(Run(es[..|es| - 1]), es[|es| - 1]);
      PrivateStaysPlain(Run(es[..|es| - 1]), es[|es| - 1]);
    }
  }

  /** While a pair's chat exists, creating it in either order returns that chat and changes nothing. */
  lemma {:induction false} CreationReturnsExisting(es: seq<Event>, chat: nat, a: Uuid, b: Uuid, id: nat)
    requires a != b && PairActive(Run(es), chat, a, b)
    ensures CreatePrivateChat(Run(es), id, a, b) == (Run(es), Ok(chat))
    ensures CreatePrivateChat(Run(es), id, b, a) == (Run(es), Ok(chat))
  {
    AtMostOnePrivateChat(es);
    var t := Run(es);
    PairIsSymmetric(t, a, b);
    var found := PrivateChats(t, a, b);
    assert chat in found;
    assert PairActive(t, Least(found), a, b);
  }

  /** Otherwise creation makes the pair's chat, with both active. */
  lemma {:induction false} CreationActivatesPair(t: Table, id: nat, a: Uuid, b: Uuid)
    requires id !in t && a != b
    ensures var (t', r) := CreatePrivateChat(t, id, a, b);
            r.Ok? && PairActive(t', r.value, a, b) && (PrivateChats(t, a, b) == {} ==> r.value == id)
  {
    if PrivateChats(t, a, b) != {} {
      var c := Least(PrivateChats(t, a, b));
      assert c in PrivateChats(t, a, b);
    }
  }

  ghost predicate DepartedPrivate(t: Table, chat: nat, u: Uuid) {
    chat in t && t[chat].kind.Private? && u in t[chat].members && t[chat].members[u].left
  }

  lemma {:induction false} StepKeepsDeparted(t: Table, e: Event, chat: nat, u: Uuid)
    requires PrivateOk(t) && DepartedPrivate(t, chat, u)
    ensures DepartedPrivate(Step(t, e), chat, u)
  {
    PrivateStep(t, e, chat);
  }

  /** Whatever chat a creation returns is an undeleted private chat with both users active, and only a missing one is made. */
  lemma {:induction false} CreationReturnsUsable(t: Table, id: nat, a: Uuid, b: Uuid)
    requires id !in t && a != b
    ensures var (t', r) := CreatePrivateChat(t, id, a, b);
            && r.Ok? && r.value in t' && t'[r.value].kind == Private && !t'[r.value].deleted
            && RoleIn(t', r.value, a).Some? && RoleIn(t', r.value, b).Some?
            && (r.value in t ==> t' == t)
  {
    if PrivateChats(t, a, b) != {} {
      assert Least(PrivateChats(t, a, b)) in PrivateChats(t, a, b);
    }
  }

  /** A member who has left a private chat never becomes active in it again. */
  lemma {:induction false} DepartureIsFinal(es: seq<Event>, n: nat, chat: nat, u: Uuid)
    requires n <= |es|
    requires DepartedPrivate(Run(es[..n]), chat, u)
    ensures DepartedPrivate(Run(es), chat, u)
    decreases |es|
  {
    if n == |es| {
      assert es[..n] == es;
    } else {
      var m := |es| - 1;
      assert es[..m][..n] == es[..n];
      DepartureIsFinal(es[..m], n, chat, u);
      AtMostOnePrivateChat(es[..m]);
      StepKeepsDeparted(Run(es[..m]), es[m], chat, u);
    }
  }

  /** What an insert after an earlier search does: pairs stay unique exactly when the pair still has no chat. */
  lemma {:induction false} InsertKeepsUniqueIff(t: Table, id: nat, a: Uuid, b: Uuid)
    requires PairsUnique(t) && id !in t && a != b
    ensures PairsUnique(WithPrivateChat(t, id, a, b)) <==> PrivateChats(t, a, b) == {}
  {
    var t' := WithPrivateChat(t, id, a, b);
    assert PairActive(t', id, a, b);
    if PrivateChats(t, a, b) == {} {
      PairIsSymmetric(t, a, b);
      forall c, d, x, y | x != y && PairActive(t', c, x, y) && PairActive(t', d, x, y) ensures c == d {
        assert c != id ==> PairActive(t, c, x, y);
        assert d != id ==> PairActive(t, d, x, y);
        assert (c == id || d == id) ==> (x == a && y == b) || (x == b && y == a);
      }
    } else {
      var c := Least(PrivateChats(t, a, b));
      assert PairActive(t, c, a, b) && PairActive(t', c, a, b);
    }
  }

  // ---- Invite links ------------------------------------------------------------------------------

  ghost predicate Linked(t: Table, chat: nat) {
    chat in t && t[chat].inviteLink.Some?
  }

  /** No two chats share a link. */
  ghost predicate LinksUnique(t: Table) {
    forall c, d :: Linked(t, c) && Linked(t, d) && t[c].inviteLink == t[d].inviteLink ==> c == d
  }

  /** A link changes only by `SetLink` on its chat, and then to one no other chat has. */
  lemma {:induction false} LinkStep(t: Table, e: Event, chat: nat)
    requires Linked(Step(t, e), chat)
    ensures || (Linked(t, chat) && Step(t, e)[chat].inviteLink == t[chat].inviteLink)
            || (e.SetLink? && e.chat == chat && forall d :: Linked(t, d) && d != chat ==> t[d].inviteLink != Step(t, e)[chat].inviteLink)
  {
  }

  lemma {:induction false} StepKeepsLinksUnique(t: Table, e: Event)
    requires LinksUnique(t)
    ensures LinksUnique(Step(t, e))
  {
    var t' := Step(t, e);
    forall c, d | Linked(t', c) && Linked(t', d) && t'[c].inviteLink == t'[d].inviteLink ensures c == d {
      LinkStep(t, e, c);
      LinkStep(t, e, d);
    }
  }

  lemma {:induction false} StepKeepsLinked(t: Table, e: Event, chat: nat)
    requires Linked(t, chat)
    ensures Linked(Step(t, e), chat)
  {
  }

  /** Over all runs no two chats share a link. */
  lemma {:induction false} RunKeepsLinksUnique(es: seq<Event>)
    ensures LinksUnique(Run(es))
  {
    if es != [] {
      RunKeepsLinksUnique(es[..|es| - 1]);
      StepKeepsLinksUnique(Run(es[..|es| - 1]), es[|es| - 1]);
    }
  }

  /** A chat that ever had a link has one in every later state; asking to delete it only changes it. */
  lemma {:induction false} LinkIsNeverRemoved(es: seq<Event>, n: nat, chat: nat)
    requires n <= |es| && Linked(Run(es[..n]), chat)
    ensures Linked(Run(es), chat)
    ensures forall actor, random :: var (t, r) := SetInviteLink(Run(es), chat, actor, Some(""), random);
              Linked(t, chat) && (r.Ok? ==> t[chat].inviteLink == Some(random))
    decreases |es|
  {
    if n == |es| {
      assert es[..n] == es;
    } else {
      var m := |es| - 1;
      assert es[..m][..n] == es[..n];
      LinkIsNeverRemoved(es[..m], n, chat);
      StepKeepsLinked(Run(es[..m]), es[m], chat);
    }
  }

  /** From the empty tables: the owner of a fresh group stores a link, and asking to delete it replaces it. */
  lemma {:induction false} LinkIsReachable(first: string, second: string)
    ensures var es := [CreateGroup(1, 7, []), SetLink(1, 7, None, first)];
            var t := Run(es);
            && Linked(t, 1) && t[1].inviteLink == Some(first)
            && SetInviteLink(t, 1, 7, Some(""), second).1 == Ok(second)
  {
    var es := [CreateGroup(1, 7, []), SetLink(1, 7, None, first)];
    assert es[..1] == [CreateGroup(1, 7, [])] && es[..1][..0] == [];
    assert Run(es[..1]) == CreateGroupChat(map[], 1, 7, []);
    assert RoleIn(Run(es[..1]), 1, 7) == Some(Owner);
    assert RoleIn(Run(es), 1, 7) == Some(Owner);
  }

  /** Over all runs only groups have links, and a join by a link goes to the one undeleted chat that has it. */
  lemma {:induction false} JoinGoesToTheLinkedGroup(es: seq<Event>, slug: string, user: Uuid)
    ensures var t := Run(es);
            && (BySlug(t, slug) == {} ==> JoinBySlug(t, slug, user) == (t, Err(NotFound)))
            && (forall chat :: chat in BySlug(t, slug) ==>
                  BySlug(t, slug) == {chat} && t[chat].kind.Group? && JoinBySlug(t, slug, user) == JoinChat(t, chat, user))
  {
    var t := Run(es);
    RunKeepsLinksUnique(es);
    AtMostOnePrivateChat(es);
    forall chat | chat in BySlug(t, slug)
      ensures BySlug(t, slug) == {chat} && t[chat].kind.Group? && JoinBySlug(t, slug, user) == JoinChat(t, chat, user)
    {
      forall d | d in BySlug(t, slug) ensures d == chat {
        assert Linked(t, chat) && Linked(t, d);
      }
    }
  }
}
