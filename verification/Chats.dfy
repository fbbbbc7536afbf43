/**
 Chats and their members: the repository methods that create chats and change who is
 in them and with which role, each method taken as one step.
 */
module Chats {
  import opened Prelude
  import opened KeyRotation

  datatype Kind = Private | Group

  datatype Chat = Chat(
    kind: Kind,
    createdBy: Uuid,
    members: Participants,
    deleted: bool,
    inviteLink: Option<string>)

  datatype ChatError = Unauthorized | NotFound | Validation | AlreadyExists

  type Table = map<nat, Chat>

  /** `get_participant_role`: the role of an active member. */
  function RoleIn(t: Table, chat: nat, user: Uuid): Option<Role> {
    if chat in t && IsActiveIn(t[chat].members, user) then Some(t[chat].members[user].role) else None
  }

  function WithMember(t: Table, chat: nat, user: Uuid, p: Participant): Table
    requires chat in t
  {
    t[chat := t[chat].(members := t[chat].members[user := p])]
  }

  // ---- Creation ------------------------------------------------------------------------------

  /** Undeleted private chats with both users active. */
  function PrivateChats(t: Table, a: Uuid, b: Uuid): set<nat> {
    set c | c in t && t[c].kind.Private? && !t[c].deleted && IsActiveIn(t[c].members, a) && IsActiveIn(t[c].members, b)
  }

  /** The transaction that inserts a private chat and its two members. */
  function WithPrivateChat(t: Table, id: nat, creator: Uuid, other: Uuid): Table {
    var p := Participant(Member, None, Some(creator), false);
    t[id := Chat(Private, creator, map[creator := p, other := p], false, None)]
  }

  /** The handler refuses a chat with oneself; the repository reuses an existing chat of the pair. */
  function CreatePrivateChat(t: Table, id: nat, creator: Uuid, other: Uuid): (Table, Result<nat, ChatError>) {
    if creator == other then (t, Err(Validation))
    else if PrivateChats(t, creator, other) != {} then (t, Ok(Least(PrivateChats(t, creator, other))))
    else (WithPrivateChat(t, id, creator, other), Ok(id))
  }

  function InitialMembers(creator: Uuid, participants: seq<Uuid>): Participants {
    (map u | u in participants :: Participant(Member, None, Some(creator), false))
      [creator := Participant(Owner, None, Some(creator), false)]
  }

  function CreateGroupChat(t: Table, id: nat, creator: Uuid, participants: seq<Uuid>): Table {
    t[id := Chat(Group, creator, InitialMembers(creator, participants), false, None)]
  }

  // ---- Membership ----------------------------------------------------------------------------

  function AddParticipant(t: Table, chat: nat, actor: Uuid, user: Uuid, key: Option<string>): (Table, Result<Participant, ChatError>) {
    var actorRole := RoleIn(t, chat, actor);
    if actorRole.None? then (t, Err(Unauthorized))
    else if Level(actorRole.value) < Level(Admin) then (t, Err(Unauthorized))
    else if t[chat].deleted then (t, Err(NotFound))
    else if t[chat].kind.Private? then (t, Err(Validation))
    else if RoleIn(t, chat, user).Some? then (t, Err(Validation))
    else
      var p := Participant(Member, key, Some(actor), false);
      (WithMember(t, chat, user, p), Ok(p))
  }

  function RemoveParticipant(t: Table, chat: nat, actor: Uuid, target: Uuid): (Table, Result<bool, ChatError>) {
    var actorRole, targetRole := RoleIn(t, chat, actor), RoleIn(t, chat, target);
    if actorRole.None? then (t, Err(Unauthorized))
    else if targetRole.None? then (t, Err(NotFound))
    else if actor == target && actorRole.value.Owner? then (t, Err(Validation))
    else if actor != target && Level(actorRole.value) <= Level(targetRole.value) then (t, Err(Unauthorized))
    else (WithMember(t, chat, target, t[chat].members[target].(left := true)), Ok(true))
  }

  /** The handler refuses the owner role before the repository is asked. */
  function UpdateParticipantRole(t: Table, chat: nat, actor: Uuid, target: Uuid, newRole: Role): (Table, Result<Participant, ChatError>) {
    var actorRole, targetRole := RoleIn(t, chat, actor), RoleIn(t, chat, target);
    if newRole.Owner? then (t, Err(Validation))
    else if actorRole.None? then (t, Err(Unauthorized))
    else if targetRole.None? then (t, Err(NotFound))
    else if Level(actorRole.value) <= Level(targetRole.value) || Level(actorRole.value) <= Level(newRole) then (t, Err(Unauthorized))
    else
      var p := t[chat].members[target].(role := newRole);
      (WithMember(t, chat, target, p), Ok(p))
  }

  function BySlug(t: Table, slug: string): set<nat> {
    set c | c in t && t[c].inviteLink == Some(slug) && !t[c].deleted
  }

  /** The row a join leaves: a new plain member, or the earlier row made one again. */
  function Rejoined(t: Table, chat: nat, user: Uuid): Participant
    requires chat in t
  {
    if user in t[chat].members then t[chat].members[user].(role := Member, left := false)
    else Participant(Member, None, None, false)
  }

  /** `join_by_invite`: insert or revive the membership as a plain member. */
  function JoinChat(t: Table, chat: nat, user: Uuid): (Table, Result<Participant, ChatError>)
    requires chat in t
  {
    if RoleIn(t, chat, user).Some? then (t, Err(Validation))
    else (WithMember(t, chat, user, Rejoined(t, chat, user)), Ok(Rejoined(t, chat, user)))
  }

  /** The handler finds the chat by its link and joins it. */
  function JoinBySlug(t: Table, slug: string, user: Uuid): (Table, Result<Participant, ChatError>) {
    if BySlug(t, slug) == {} then (t, Err(NotFound))
    else JoinChat(t, Least(BySlug(t, slug)), user)
  }

  /** Links are UNIQUE over all chats, deleted ones included. */
  predicate LinkTaken(t: Table, chat: nat, link: string) {
    exists c :: c in t && c != chat && t[c].inviteLink == Some(link)
  }

  function ChosenLink(slug: Option<string>, random: string): string {
    if slug.None? || slug.value == "" then random else slug.value
  }

  /** An absent or empty slug draws a random one; a CHECK keeps private chats without links. */
  function SetInviteLink(t: Table, chat: nat, actor: Uuid, slug: Option<string>, random: string): (Table, Result<string, ChatError>) {
    var actorRole := RoleIn(t, chat, actor);
    if actorRole.None? then (t, Err(Unauthorized))
    else if Level(actorRole.value) < Level(Admin) then (t, Err(Unauthorized))
    else
      var link := ChosenLink(slug, random);
      if t[chat].kind.Private? then (t, Err(Validation))
      else if LinkTaken(t, chat, link) then (t, Err(AlreadyExists))
      else (t[chat := t[chat].(inviteLink := Some(link))], Ok(link))
  }

  // ---- Keys, ownership, deletion ----------------------------------------------------------------

  function RotateGroupKey(t: Table, chat: nat, actor: Uuid, keys: seq<(Uuid, string)>): (Table, Result<nat, ChatError>) {
    var actorRole := RoleIn(t, chat, actor);
    if keys == [] then (t, Err(Validation))
    else if actorRole.None? then (t, Err(Unauthorized))
    else if Level(actorRole.value) < Level(Admin) then (t, Err(Unauthorized))
    else
      var ps := t[chat].members;
      (t[chat := t[chat].(members := Rotated(ps, keys))], Ok(|Hits(ps, keys)|))
  }

  /** The transaction of a transfer: two updates by (chat, user), whatever the rows' roles are by then. */
  function Swapped(t: Table, chat: nat, current: Uuid, next: Uuid): Table
    requires chat in t && current in t[chat].members && next in t[chat].members
  {
    var demoted := WithMember(t, chat, current, t[chat].members[current].(role := Admin));
    WithMember(demoted, chat, next, demoted[chat].members[next].(role := Owner))
  }

  /** The handler refuses a transfer to oneself; any active member can become owner. */
  function TransferOwnership(t: Table, chat: nat, current: Uuid, next: Uuid): (Table, Result<(), ChatError>) {
    if next == current then (t, Err(Validation))
    else if RoleIn(t, chat, current).None? then (t, Err(Unauthorized))
    else if !RoleIn(t, chat, current).value.Owner? then (t, Err(Unauthorized))
    else if RoleIn(t, chat, next).None? then (t, Err(NotFound))
    else (Swapped(t, chat, current, next), Ok(()))
  }

  /** A private chat is left; a group is deleted by its owner and left by anyone else. */
  function DeleteChat(t: Table, user: Uuid, chat: nat): (Table, Result<(), ChatError>) {
    if RoleIn(t, chat, user).None? || t[chat].deleted then (t, Err(NotFound))
    else if t[chat].kind.Group? && t[chat].members[user].role.Owner?
    then (t[chat := t[chat].(deleted := true)], Ok(()))
    else (WithMember(t, chat, user, t[chat].members[user].(left := true)), Ok(()))
  }

  // ---- The repository -----------------------------------------------------------------------------

  /** The chats and chat_participants tables. */
  class ChatRepository {
    var chats: Table

    constructor ()
      ensures chats == map[]
    {
      chats := map[];
    }

    method GetParticipantRole(user: Uuid, chat: nat) returns (r: Option<Role>)
      ensures r == RoleIn(chats, chat, user)
    {
      r := None;
      if chat in chats && user in chats[chat].members && !chats[chat].members[user].left {
        r := Some(chats[chat].members[user].role);
      }
    }

    /** UPDATE or upsert of one participant row. */
    method PutMember(chat: nat, user: Uuid, p: Participant)
      requires chat in chats
      modifies this
      ensures chats == WithMember(old(chats), chat, user, p)
    {
      var c := chats[chat];
      chats := chats[chat := c.(members := c.members[user := p])];
    }

    method CreatePrivate(id: nat, creator: Uuid, other: Uuid) returns (r: Result<nat, ChatError>)
      requires id !in chats
      modifies this
      ensures (chats, r) == CreatePrivateChat(old(chats), id, creator, other)
    {
      if creator == other {
        return Err(Validation);
      }
      var existing := PrivateChats(chats, creator, other);
      if existing != {} {
        return Ok(Least(existing));
      }
      var p := Participant(Member, None, Some(creator), false);
      chats := chats[id := Chat(Private, creator, map[creator := p, other := p], false, None)];
      return Ok(id);
    }

    /** The owner's row, then one row per listed participant unless it exists already. */
    method CreateGroup(id: nat, creator: Uuid, participants: seq<Uuid>)
      requires id !in chats
      modifies this
      ensures chats == CreateGroupChat(old(chats), id, creator, participants)
    {
      var members: Participants := map[creator := Participant(Owner, None, Some(creator), false)];
      var i := 0;
      while i < |participants|
        invariant 0 <= i <= |participants|
        invariant members == InitialMembers(creator, participants[..i])
      {
        if participants[i] != creator && participants[i] !in members {
          members := members[participants[i] := Participant(Member, None, Some(creator), false)];
        }
        assert forall u :: u in participants[..i + 1] <==> u in participants[..i] || u == participants[i];
        i := i + 1;
      }
      assert participants[..|participants|] == participants;
      chats := chats[id := Chat(Group, creator, members, false, None)];
    }

    method Add(chat: nat, actor: Uuid, user: Uuid, key: Option<string>) returns (r: Result<Participant, ChatError>)
      modifies this
      ensures (chats, r) == AddParticipant(old(chats), chat, actor, user, key)
    {
      var actorRole := GetParticipantRole(actor, chat);
      if actorRole.None? || Level(actorRole.value) < Level(Admin) {
        return Err(Unauthorized);
      }
      if chats[chat].deleted {
        return Err(NotFound);
      }
      if chats[chat].kind.Private? {
        return Err(Validation);
      }
      var existing := GetParticipantRole(user, chat);
      if existing.Some? {
        return Err(Validation);
      }
      var p := Participant(Member, key, Some(actor), false);
      PutMember(chat, user, p);
      return Ok(p);
    }

    method Remove(chat: nat, actor: Uuid, target: Uuid) returns (r: Result<bool, ChatError>)
      modifies this
      ensures (chats, r) == RemoveParticipant(old(chats), chat, actor, target)
    {
      var actorRole := GetParticipantRole(actor, chat);
      if actorRole.None? {
        return Err(Unauthorized);
      }
      var targetRole := GetParticipantRole(target, chat);
      if targetRole.None? {
        return Err(NotFound);
      }
      if actor == target {
        if actorRole.value.Owner? {
          return Err(Validation);
        }
      } else if Level(actorRole.value) <= Level(targetRole.value) {
        return Err(Unauthorized);
      }
      PutMember(chat, target, chats[chat].members[target].(left := true));
      return Ok(true);
    }

    method UpdateRole(chat: nat, actor: Uuid, target: Uuid, newRole: Role) returns (r: Result<Participant, ChatError>)
      modifies this
      ensures (chats, r) == UpdateParticipantRole(old(chats), chat, actor, target, newRole)
    {
      if newRole.Owner? {
        return Err(Validation);
      }
      var actorRole := GetParticipantRole(actor, chat);
      if actorRole.None? {
        return Err(Unauthorized);
      }
      var targetRole := GetParticipantRole(target, chat);
      if targetRole.None? {
        return Err(NotFound);
      }
      if Level(actorRole.value) <= Level(targetRole.value) || Level(actorRole.value) <= Level(newRole) {
        return Err(Unauthorized);
      }
      var p := chats[chat].members[target].(role := newRole);
      PutMember(chat, target, p);
      return Ok(p);
    }

    /** `find_chat_by_slug` */
    method FindBySlug(slug: string) returns (chat: Option<nat>)
      ensures chat == if BySlug(chats, slug) == {} then None else Some(Least(BySlug(chats, slug)))
    {
      var found := BySlug(chats, slug);
      chat := None;
      if found != {} {
        chat := Some(Least(found));
      }
    }

    method JoinByInvite(chat: nat, user: Uuid) returns (r: Result<Participant, ChatError>)
      requires chat in chats
      modifies this
      ensures (chats, r) == JoinChat(old(chats), chat, user)
    {
      var existing := GetParticipantRole(user, chat);
      if existing.Some? {
        return Err(Validation);
      }
      var p := Participant(Member, None, None, false);
      if user in chats[chat].members {
        p := chats[chat].members[user].(role := Member, left := false);
      }
      PutMember(chat, user, p);
      return Ok(p);
    }

    /** The two calls of the handler, with nothing in between. */
    method Join(slug: string, user: Uuid) returns (r: Result<Participant, ChatError>)
      modifies this
      ensures (chats, r) == JoinBySlug(old(chats), slug, user)
    {
      var chat := FindBySlug(slug);
      if chat.None? {
        return Err(NotFound);
      }
      r := JoinByInvite(chat.value, user);
    }

    method SetLink(chat: nat, actor: Uuid, slug: Option<string>, random: string) returns (r: Result<string, ChatError>)
      modifies this
      ensures (chats, r) == SetInviteLink(old(chats), chat, actor, slug, random)
    {
      var actorRole := GetParticipantRole(actor, chat);
      if actorRole.None? || Level(actorRole.value) < Level(Admin) {
        return Err(Unauthorized);
      }
      var link := random;
      if slug.Some? && slug.value != "" {
        link := slug.value;
      }
      if chats[chat].kind.Private? {
        return Err(Validation);
      }
      if LinkTaken(chats, chat, link) {
        return Err(AlreadyExists);
      }
      chats := chats[chat := chats[chat].(inviteLink := Some(link))];
      return Ok(link);
    }

    method RotateKey(chat: nat, actor: Uuid, keys: seq<(Uuid, string)>) returns (r: Result<nat, ChatError>)
      modifies this
      ensures (chats, r) == RotateGroupKey(old(chats), chat, actor, keys)
    {
      if keys == [] {
        return Err(Validation);
      }
      var actorRole := GetParticipantRole(actor, chat);
      if actorRole.None? || Level(actorRole.value) < Level(Admin) {
        return Err(Unauthorized);
      }
      var members, updated := RotateKeys(chats[chat].members, keys);
      chats := chats[chat := chats[chat].(members := members)];
      return Ok(updated);
    }

    method Transfer(chat: nat, current: Uuid, next: Uuid) returns (r: Result<(), ChatError>)
      modifies this
      ensures (chats, r) == TransferOwnership(old(chats), chat, current, next)
    {
      if next == current {
        return Err(Validation);
      }
      var ownerRole := GetParticipantRole(current, chat);
      if ownerRole.None? || !ownerRole.value.Owner? {
        return Err(Unauthorized);
      }
      var newRole := GetParticipantRole(next, chat);
      if newRole.None? {
        return Err(NotFound);
      }
      PutMember(chat, current, chats[chat].members[current].(role := Admin));
      PutMember(chat, next, chats[chat].members[next].(role := Owner));
      return Ok(());
    }

    method Delete(user: Uuid, chat: nat) returns (r: Result<(), ChatError>)
      modifies this
      ensures (chats, r) == DeleteChat(old(chats), user, chat)
    {
      var role := GetParticipantRole(user, chat);
      if role.None? || chats[chat].deleted {
        return Err(NotFound);
      }
      if chats[chat].kind.Private? || !role.value.Owner? {
        PutMember(chat, user, chats[chat].members[user].(left := true));
      } else {
        chats := chats[chat := chats[chat].(deleted := true)];
      }
      return Ok(());
    }
  }
}
