/**
 Delivery status rows and the unread count of a chat: sending and deleting messages, and
 marking a chat as read up to a time.
 */
module Unread {
  import opened Prelude

  /** The sender is NULL once the user row is gone. */
  datatype Message = Message(chat: Uuid, sender: Option<Uuid>, createdAt: Time, deleted: bool)

  datatype Status = Sending | Sent | Delivered | Read | Failed

  datatype StatusRow = StatusRow(status: Status, updatedAt: Time)

  /**
   `statuses` is keyed by (message, user). Of the other tables a state keeps the active
   (chat, user) pairs, the deleted and the private chats, and the (blocker, blocked) pairs.
   */
  datatype State = State(
    messages: map<Uuid, Message>,
    statuses: map<(Uuid, Uuid), StatusRow>,
    members: set<(Uuid, Uuid)>,
    closed: set<Uuid>,
    privates: set<Uuid>,
    blocks: set<(Uuid, Uuid)>)

  /** The content of a message; a text needs both its ciphertext and its IV. */
  datatype Content = Content(isText: bool, encrypted: Option<string>, iv: Option<string>)

  datatype SendError = NotFound | Blocked | Incomplete

  // ---- Operations -----------------------------------------------------------------------------

  /** `ensure_not_blocked_in_private_chat`: a block in either direction with another active member. */
  predicate IsBlocked(s: State, sender: Uuid, chat: Uuid) {
    exists p :: p in s.members && p.0 == chat && p.1 != sender && ((sender, p.1) in s.blocks || (p.1, sender) in s.blocks)
  }

  function Refusal(s: State, sender: Uuid, chat: Uuid, content: Content): Option<SendError> {
    if (chat, sender) !in s.members || chat in s.closed then Some(NotFound)
    else if chat in s.privates && IsBlocked(s, sender, chat) then Some(Blocked)
    else if content.isText && (content.encrypted.None? || content.iv.None?) then Some(Incomplete)
    else None
  }

  /** A status row for every active member, the sender included. */
  function Send(s: State, id: Uuid, sender: Uuid, chat: Uuid, content: Content, now: Time): (State, Result<(), SendError>) {
    if Refusal(s, sender, chat, content).Some? then (s, Err(Refusal(s, sender, chat, content).value))
    else
      var rows := map p | p in s.members && p.0 == chat :: (id, p.1) := StatusRow(Sent, now);
      (s.(messages := s.messages[id := Message(chat, Some(sender), now, false)], statuses := rows + s.statuses), Ok(()))
  }

  /** Only the sender's undeleted message is matched. */
  function Delete(s: State, user: Uuid, id: Uuid): (State, bool) {
    if id in s.messages && s.messages[id].sender == Some(user) && !s.messages[id].deleted
    then (s.(messages := s.messages[id := s.messages[id].(deleted := true)]), true)
    else (s, false)
  }

  /** The subselect of `mark_messages_read`. */
  predicate Eligible(s: State, user: Uuid, chat: Uuid, upTo: Time, id: Uuid) {
    && id in s.messages
    && var m := s.messages[id];
       && m.chat == chat && !m.deleted && m.createdAt <= upTo
       && m.sender.Some? && m.sender.value != user
       && (chat, user) in s.members
  }

  function Touched(s: State, user: Uuid, chat: Uuid, upTo: Time): set<Uuid> {
    set id | id in s.messages && Eligible(s, user, chat, upTo, id) && (id, user) in s.statuses &&
             (!s.statuses[(id, user)].status.Read? || s.statuses[(id, user)].updatedAt > upTo)
  }

  function Mark(s: State, user: Uuid, chat: Uuid, upTo: Time, now: Time): (State, nat) {
    var touched := Touched(s, user, chat, upTo);
    (s.(statuses := map k | k in s.statuses ::
                      if k.1 == user && k.0 in touched then StatusRow(Read, now) else s.statuses[k]),
     |touched|)
  }

  /** The messages behind the unread count that the chat list shows. */
  function UnreadOf(s: State, user: Uuid, chat: Uuid): set<Uuid> {
    set id | id in s.messages && s.messages[id].chat == chat && !s.messages[id].deleted &&
             (id, user) in s.statuses && !s.statuses[(id, user)].status.Read?
  }

  ghost predicate RowsHaveMessages(s: State) {
    forall k :: k in s.statuses ==> k.0 in s.messages
  }

  ghost predicate ReadIn(s: State, id: Uuid, u: Uuid) {
    (id, u) in s.statuses && s.statuses[(id, u)].status.Read?
  }

  // ---- What one operation does to the counts --------------------------------------------------

  /** Unread messages that a mark is for. */
  function Reached(s: State, user: Uuid, chat: Uuid, upTo: Time): set<Uuid> {
    set id | id in UnreadOf(s, user, chat) && Eligible(s, user, chat, upTo, id)
  }

  /** Messages read before by a mark later than `upTo`; the statement touches their rows again. */
  function Retouched(s: State, user: Uuid, chat: Uuid, upTo: Time): set<Uuid> {
    set id | id in s.messages && Eligible(s, user, chat, upTo, id) && (id, user) in s.statuses &&
             s.statuses[(id, user)].status.Read? && s.statuses[(id, user)].updatedAt > upTo
  }

  lemma {:induction false} MarkedStatus(s: State, user: Uuid, chat: Uuid, upTo: Time, now: Time, id: Uuid, u: Uuid)
    requires (id, u) in s.statuses
    ensures var s' := Mark(s, user, chat, upTo, now).0;
            && s'.messages == s.messages && s'.members == s.members && (id, u) in s'.statuses
            && (s'.statuses[(id, u)].status.Read? <==>
                s.statuses[(id, u)].status.Read? || (u == user && Eligible(s, user, chat, upTo, id)))
  {
  }

  /** A mark takes exactly the reached messages from one user's count in one chat. */
  lemma {:induction false} MarkTakesReached(s: State, user: Uuid, chat: Uuid, upTo: Time, now: Time, u: Uuid, c: Uuid)
    ensures var s' := Mark(s, user, chat, upTo, now).0;
            UnreadOf(s', u, c) ==
            if (u, c) == (user, chat) then UnreadOf(s, u, c) - Reached(s, user, chat, upTo) else UnreadOf(s, u, c)
  {
    var s' := Mark(s, user, chat, upTo, now).0;
    forall id | id in s.messages && (id, u) in s.statuses
      ensures s'.statuses[(id, u)].status.Read? <==>
              s.statuses[(id, u)].status.Read? || (u == user && Eligible(s, user, chat, upTo, id))
    {
      MarkedStatus(s, user, chat, upTo, now, id, u);
    }
  }

  /** Rows that no mark of this user, chat and time may touch. */
  ghost predicate OutOfReach(s: State, user: Uuid, chat: Uuid, upTo: Time, id: Uuid, u: Uuid)
    requires id in s.messages
  {
    var m := s.messages[id];
    || u != user || (chat, user) !in s.members
    || m.chat != chat || m.deleted || m.createdAt > upTo
    || m.sender == None || m.sender == Some(user)
  }

  /** Out of reach a row keeps its status and time; within reach an unread row becomes read now. */
  lemma {:induction false} MarkedRows(s: State, user: Uuid, chat: Uuid, upTo: Time, now: Time, id: Uuid, u: Uuid)
    requires (id, u) in s.statuses && id in s.messages
    ensures var s' := Mark(s, user, chat, upTo, now).0;
            && s'.messages == s.messages && s'.members == s.members && s'.statuses.Keys == s.statuses.Keys
            && (OutOfReach(s, user, chat, upTo, id, u) ==> s'.statuses[(id, u)] == s.statuses[(id, u)])
            && (!OutOfReach(s, user, chat, upTo, id, u) ==>
                  s'.statuses[(id, u)] ==
                  if s.statuses[(id, u)].status == Read && s.statuses[(id, u)].updatedAt <= upTo
                  then s.statuses[(id, u)] else StatusRow(Read, now))
  {
  }

  /** What stays unread after a mark: own messages, messages without a sender, and messages later than the bound. */
  lemma {:induction false} MarkLeaves(s: State, user: Uuid, chat: Uuid, upTo: Time, now: Time)
    ensures UnreadOf(Mark(s, user, chat, upTo, now).0, user, chat) ==
            set id | id in UnreadOf(s, user, chat) &&
                     ((chat, user) !in s.members || s.messages[id].sender == Some(user)
                      || s.messages[id].sender == None || s.messages[id].createdAt > upTo)
  {
    var s' := Mark(s, user, chat, upTo, now).0;
    forall id | id in s.messages && (id, user) in s.statuses
      ensures s'.messages == s.messages && s'.statuses.Keys == s.statuses.Keys
      ensures OutOfReach(s, user, chat, upTo, id, user) ==> s'.statuses[(id, user)] == s.statuses[(id, user)]
      ensures !OutOfReach(s, user, chat, upTo, id, user) ==> s'.statuses[(id, user)].status == Read
    {
      MarkedRows(s, user, chat, upTo, now, id, user);
    }
  }

  /** The reported count is the drop of the unread count plus the rows touched again. */
  lemma {:induction false} MarkCount(s: State, user: Uuid, chat: Uuid, upTo: Time, now: Time)
    ensures var (s', count) := Mark(s, user, chat, upTo, now);
            count == |UnreadOf(s, user, chat)| - |UnreadOf(s', user, chat)| + |Retouched(s, user, chat, upTo)|
    ensures var (s', count) := Mark(s, user, chat, upTo, now);
            count >= |UnreadOf(s, user, chat)| - |UnreadOf(s', user, chat)|
  {
    var unread, reached, again := UnreadOf(s, user, chat), Reached(s, user, chat, upTo), Retouched(s, user, chat, upTo);
    assert Touched(s, user, chat, upTo) == reached + again && reached !! again;
    MarkTakesReached(s, user, chat, upTo, now, user, chat);
    assert reached <= unread;
    assert unread == (unread - reached) + reached;
  }

  /** The user has read the message, if at all, only in marks made by `upTo`. */
  ghost predicate NotReadAfter(s: State, user: Uuid, upTo: Time, id: Uuid) {
    ReadIn(s, id, user) ==> s.statuses[(id, user)].updatedAt <= upTo
  }

  /** It equals the drop exactly when no message it is for was marked after `upTo`. */
  lemma {:induction false} CountIsDropIff(s: State, user: Uuid, chat: Uuid, upTo: Time, now: Time)
    ensures var (s', count) := Mark(s, user, chat, upTo, now);
            count == |UnreadOf(s, user, chat)| - |UnreadOf(s', user, chat)| <==>
            forall id :: Eligible(s, user, chat, upTo, id) ==> NotReadAfter(s, user, upTo, id)
  {
    MarkCount(s, user, chat, upTo, now);
    var again := Retouched(s, user, chat, upTo);
    if again != {} {
      var id := Element(again);
      assert Eligible(s, user, chat, upTo, id) && !NotReadAfter(s, user, upTo, id);
    }
    forall id | Eligible(s, user, chat, upTo, id) && !NotReadAfter(s, user, upTo, id) ensures id in again {
    }
  }

  function ReadRows(s: State): set<(Uuid, Uuid)> {
    set k | k in s.statuses && s.statuses[k].status.Read?
  }

  /** Two marks read what one mark up to the later time reads, in either order. */
  lemma {:induction false} MarksCombine(s: State, user: Uuid, chat: Uuid, t1: Time, t2: Time, now1: Time, now2: Time, now: Time)
    ensures ReadRows(Mark(Mark(s, user, chat, t1, now1).0, user, chat, t2, now2).0) ==
            ReadRows(Mark(s, user, chat, Max(t1, t2), now).0)
  {
    var s1 := Mark(s, user, chat, t1, now1).0;
    var s2 := Mark(s1, user, chat, t2, now2).0;
    var s3 := Mark(s, user, chat, Max(t1, t2), now).0;
    forall k | k in s.statuses ensures s2.statuses[k].status.Read? <==> s3.statuses[k].status.Read? {
      MarkedStatus(s, user, chat, t1, now1, k.0, k.1);
      MarkedStatus(s1, user, chat, t2, now2, k.0, k.1);
      MarkedStatus(s, user, chat, Max(t1, t2), now, k.0, k.1);
    }
  }

  /** A new message is unread for every active member of its chat, and for nobody else; a refused one for nobody. */
  lemma {:induction false} SendAddsOne(s: State, id: Uuid, sender: Uuid, chat: Uuid, content: Content, now: Time, u: Uuid, c: Uuid)
    requires RowsHaveMessages(s) && id !in s.messages
    ensures var (s', r) := Send(s, id, sender, chat, content, now);
            UnreadOf(s', u, c) == UnreadOf(s, u, c) + if r.Ok? && c == chat && (chat, u) in s.members then {id} else {}
  {
    var (s', r) := Send(s, id, sender, chat, content, now);
    if r.Ok? {
      assert (id, u) !in s.statuses;
      assert (id, u) in s'.statuses <==> (chat, u) in s.members;
    }
  }

  lemma {:induction false} DeleteTakesOne(s: State, user: Uuid, id: Uuid, u: Uuid, c: Uuid)
    requires Delete(s, user, id).1
    ensures UnreadOf(Delete(s, user, id).0, u, c) == UnreadOf(s, u, c) - {id}
  {
  }

  // ---- Runs -----------------------------------------------------------------------------------

  /** `Elsewhere` stands for every other endpoint: it may change membership, chats and blocks at will. */
  datatype Event =
    | SendNew(id: Uuid, user: Uuid, chat: Uuid, content: Content, now: Time)
    | DeleteOne(user: Uuid, id: Uuid)
    | MarkRead(user: Uuid, chat: Uuid, upTo: Time, now: Time)
    | Elsewhere(members: set<(Uuid, Uuid)>, closed: set<Uuid>, privates: set<Uuid>, blocks: set<(Uuid, Uuid)>)

  function Step(s: State, e: Event): State {
    match e
    case SendNew(id, user, chat, content, now) => if id in s.messages then s else Send(s, id, user, chat, content, now).0
    case DeleteOne(user, id) => Delete(s, user, id).0
    case MarkRead(user, chat, upTo, now) => Mark(s, user, chat, upTo, now).0
    case Elsewhere(members, closed, privates, blocks) =>
      s.(members := members, closed := closed, privates := privates, blocks := blocks)
  }

  const EMPTY := State(map[], map[], {}, {}, {}, {})

  function Run(es: seq<Event>): State {
    if es == [] then EMPTY else Step(Run(es[..|es| - 1]), es[|es| - 1])
  }

  lemma {:induction false} RunHasMessages(es: seq<Event>)
    ensures RowsHaveMessages(Run(es))
  {
    if es != [] {
      RunHasMessages(es[..|es| - 1]);
    }
  }

  /** Step `n` of the run is a mark by an active member, for a foreign undeleted message of the chat, no later than the bound. */
  ghost predicate MarksAt(es: seq<Event>, n: nat, id: Uuid, u: Uuid)
    requires n < |es|
  {
    var s := Run(es[..n]);
    && es[n].MarkRead? && es[n].user == u
    && (es[n].chat, u) in s.members
    && id in s.messages && s.messages[id].chat == es[n].chat && !s.messages[id].deleted
    && s.messages[id].sender.Some? && s.messages[id].sender != Some(u)
    && s.messages[id].createdAt <= es[n].upTo
  }

  ghost predicate EverMarked(es: seq<Event>, id: Uuid, u: Uuid) {
    exists n: nat :: n < |es| && MarksAt(es, n, id, u)
  }

  lemma {:induction false} EverMarkedSnoc(es: seq<Event>, id: Uuid, u: Uuid)
    requires es != []
    ensures var n := |es| - 1;
            EverMarked(es, id, u) <==> EverMarked(es[..n], id, u) || MarksAt(es, n, id, u)
  {
    var m := |es| - 1;
    forall n: nat | n < m ensures es[..m][..n] == es[..n] && (MarksAt(es[..m], n, id, u) <==> MarksAt(es, n, id, u)) {
      assert es[..m][..n] == es[..n];
    }
    if EverMarked(es[..m], id, u) {
      var n: nat :| n < m && MarksAt(es[..m], n, id, u);
      assert MarksAt(es, n, id, u);
    }
    if MarksAt(es, m, id, u) {
      assert EverMarked(es, id, u);
    }
  }

  lemma {:induction false} StepReads(s: State, e: Event, id: Uuid, u: Uuid)
    requires RowsHaveMessages(s)
    ensures (id, u) in s.statuses ==>
              (id, u) in Step(s, e).statuses &&
              (ReadIn(Step(s, e), id, u) <==>
               ReadIn(s, id, u) || (e.MarkRead? && e.user == u && Eligible(s, u, e.chat, e.upTo, id)))
    ensures (id, u) !in s.statuses ==> !ReadIn(Step(s, e), id, u)
  {
    if e.MarkRead? && (id, u) in s.statuses {
      MarkedStatus(s, e.user, e.chat, e.upTo, e.now, id, u);
    }
  }

  /** A row, once its message is sent, exists or not for good. */
  lemma {:induction false} NoLateRow(s: State, e: Event, id: Uuid, u: Uuid)
    requires id in s.messages && (id, u) !in s.statuses
    ensures (id, u) !in Step(s, e).statuses
  {
  }

  lemma {:induction false} NoRowUnlessSent(es: seq<Event>, id: Uuid, u: Uuid)
    requires (id, u) in Run(es).statuses && (es == [] || (id, u) !in Run(es[..|es| - 1]).statuses)
    ensures es != [] && id !in Run(es[..|es| - 1]).messages
  {
    if es != [] && id in Run(es[..|es| - 1]).messages {
      NoLateRow(Run(es[..|es| - 1]), es[|es| - 1], id, u);
    }
  }

  lemma {:induction false} NotMarkedBeforeSent(es: seq<Event>, id: Uuid, u: Uuid)
    requires id !in Run(es).messages
    ensures !EverMarked(es, id, u)
  {
    if es != [] {
      EverMarkedSnoc(es, id, u);
      NotMarkedBeforeSent(es[..|es| - 1], id, u);
    }
  }

  /** Over all runs a row is read exactly when some mark was for its message and user. */
  lemma {:induction false} ReadIffMarked(es: seq<Event>, id: Uuid, u: Uuid)
    requires (id, u) in Run(es).statuses
    ensures ReadIn(Run(es), id, u) <==> EverMarked(es, id, u)
  {
    if es != [] {
      var n := |es| - 1;
      RunHasMessages(es[..n]);
      StepReads(Run(es[..n]), es[n], id, u);
      EverMarkedSnoc(es, id, u);
      if (id, u) in Run(es[..n]).statuses {
        ReadIffMarked(es[..n], id, u);
      } else {
        NoRowUnlessSent(es, id, u);
        NotMarkedBeforeSent(es[..n], id, u);
      }
    }
  }

  /** Over all runs a message has the sender, chat and time of the event that sent it. */
  lemma {:induction false} MessagesComeFromSends(es: seq<Event>, id: Uuid)
    requires id in Run(es).messages
    ensures var m := Run(es).messages[id];
            m.sender.Some? && exists content :: SendNew(id, m.sender.value, m.chat, content, m.createdAt) in es
  {
    var n := |es| - 1;
    var s := Run(es[..n]);
    assert es == es[..n] + [es[n]];
    if id in s.messages {
      MessagesComeFromSends(es[..n], id);
      var m := s.messages[id];
      var content :| SendNew(id, m.sender.value, m.chat, content, m.createdAt) in es[..n];
      assert SendNew(id, m.sender.value, m.chat, content, m.createdAt) in es;
    } else {
      assert es[n].SendNew? && es[n] == SendNew(id, es[n].user, es[n].chat, es[n].content, es[n].now);
    }
  }

  /** A message is deleted only by its sender, and then stays so. */
  lemma {:induction false} OnlySenderDeletes(s: State, e: Event, id: Uuid)
    requires id in s.messages
    ensures id in Step(s, e).messages
    ensures Step(s, e).messages[id].deleted <==>
            s.messages[id].deleted || (e.DeleteOne? && e.id == id && s.messages[id].sender == Some(e.user))
    ensures Step(s, e).messages[id].(deleted := s.messages[id].deleted) == s.messages[id]
  {
  }

  /** Another active member and the sender, one of whom has blocked the other. */
  ghost predicate InBlock(s: State, chat: Uuid, sender: Uuid, other: Uuid) {
    (chat, other) in s.members && other != sender && ((sender, other) in s.blocks || (other, sender) in s.blocks)
  }

  /** Deleting succeeds for the sender of an undeleted message, and changes nothing for anyone else. */
  lemma {:induction false} DeleteMeaning(s: State, user: Uuid, id: Uuid)
    ensures var (s', found) := Delete(s, user, id);
            && (found <==> id in s.messages && s.messages[id].sender == Some(user) && !s.messages[id].deleted)
            && (!found ==> s' == s)
            && (found ==> s' == s.(messages := s'.messages) && s'.messages.Keys == s.messages.Keys && s'.messages[id].deleted)
  {
  }

  /** Exactly when a message is sent, and why it is refused otherwise. */
  lemma {:induction false} SendRefusals(s: State, id: Uuid, sender: Uuid, chat: Uuid, content: Content, now: Time)
    ensures var r := Send(s, id, sender, chat, content, now).1;
            var member := (chat, sender) in s.members && chat !in s.closed;
            var blocked := chat in s.privates && (exists u :: InBlock(s, chat, sender, u));
            && (r == Err(NotFound) <==> !member)
            && (r == Err(Blocked) <==> member && blocked)
            && (r == Err(Incomplete) <==>
                  member && !blocked && content.isText && !(content.encrypted.Some? && content.iv.Some?))
  {
    if IsBlocked(s, sender, chat) {
      var p :| p in s.members && p.0 == chat && p.1 != sender && ((sender, p.1) in s.blocks || (p.1, sender) in s.blocks);
      assert InBlock(s, chat, sender, p.1);
    }
    if u :| InBlock(s, chat, sender, u) {
      assert (chat, u).0 == chat;
    }
  }

  /** Own messages have a row from the start and are never marked. */
  ghost predicate OwnUnread(s: State) {
    forall id :: id in s.messages ==>
      s.messages[id].sender.Some? &&
      (id, s.messages[id].sender.value) in s.statuses && !ReadIn(s, id, s.messages[id].sender.value)
  }

  lemma {:induction false} StepKeepsOwnUnread(s: State, e: Event)
    requires RowsHaveMessages(s) && OwnUnread(s)
    ensures OwnUnread(Step(s, e))
  {
    var s' := Step(s, e);
    forall id | id in s'.messages
      ensures s'.messages[id].sender.Some?
      ensures (id, s'.messages[id].sender.value) in s'.statuses && !ReadIn(s', id, s'.messages[id].sender.value)
    {
      if id in s.messages {
        assert s'.messages[id].sender == s.messages[id].sender;
        StepReads(s, e, id, s.messages[id].sender.value);
      }
    }
  }

  lemma {:induction false} RunKeepsOwnUnread(es: seq<Event>)
    ensures OwnUnread(Run(es))
  {
    if es != [] {
      RunKeepsOwnUnread(es[..|es| - 1]);
      RunHasMessages(es[..|es| - 1]);
      StepKeepsOwnUnread(Run(es[..|es| - 1]), es[|es| - 1]);
    }
  }

  /** Undeleted messages of the chat that the user sent. */
  function Own(s: State, user: Uuid, chat: Uuid): set<Uuid> {
    set id | id in s.messages && s.messages[id].chat == chat && s.messages[id].sender == Some(user) && !s.messages[id].deleted
  }

  /** A user's own undeleted messages stay in their unread count through every run. */
  lemma {:induction false} OwnMessagesStayUnread(es: seq<Event>, u: Uuid, chat: Uuid)
    ensures Own(Run(es), u, chat) <= UnreadOf(Run(es), u, chat)
    ensures |Own(Run(es), u, chat)| <= |UnreadOf(Run(es), u, chat)|
  {
    var s := Run(es);
    RunKeepsOwnUnread(es);
    forall id | id in Own(s, u, chat) ensures id in UnreadOf(s, u, chat) {
      assert id in s.messages && s.messages[id].sender.value == u;
    }
    SubsetSize(Own(s, u, chat), UnreadOf(s, u, chat));
  }

  /** After marking up to the newest message of the chat, an active member's count is exactly their own messages. */
  lemma {:induction false} MarkingAllLeavesOwn(es: seq<Event>, u: Uuid, chat: Uuid, upTo: Time, now: Time)
    requires (chat, u) in Run(es).members
    requires forall id :: id in Run(es).messages && Run(es).messages[id].chat == chat ==> Run(es).messages[id].createdAt <= upTo
    ensures UnreadOf(Mark(Run(es), u, chat, upTo, now).0, u, chat) == Own(Run(es), u, chat)
  {
    var s := Run(es);
    RunKeepsOwnUnread(es);
    MarkTakesReached(s, u, chat, upTo, now, u, chat);
    forall id | id in s.messages
      ensures id in UnreadOf(s, u, chat) - Reached(s, u, chat, upTo) <==> id in Own(s, u, chat)
    {
      assert s.messages[id].sender.Some?;
    }
  }

  // ---- A count that is no drop ------------------------------------------------------------------

  /** Marking again with the same bound counts every row the first mark touched after the bound, and drops nothing. */
  lemma {:induction false} MarkingAgainCounts(s: State, user: Uuid, chat: Uuid, upTo: Time, now1: Time, now2: Time)
    requires now1 > upTo
    ensures var (s1, count1) := Mark(s, user, chat, upTo, now1);
            var (s2, count2) := Mark(s1, user, chat, upTo, now2);
            count2 == count1 && UnreadOf(s2, user, chat) == UnreadOf(s1, user, chat)
  {
    var s1 := Mark(s, user, chat, upTo, now1).0;
    forall id ensures id in Touched(s1, user, chat, upTo) <==> id in Touched(s, user, chat, upTo) {
      if (id, user) in s.statuses {
        MarkedStatus(s, user, chat, upTo, now1, id, user);
      }
    }
    assert Touched(s1, user, chat, upTo) == Touched(s, user, chat, upTo);
    MarkTakesReached(s1, user, chat, upTo, now2, user, chat);
    forall id ensures id !in Reached(s1, user, chat, upTo) {
      if (id, user) in s.statuses {
        MarkedStatus(s, user, chat, upTo, now1, id, user);
      }
    }
  }

  lemma {:induction false} RunSnoc(es: seq<Event>, e: Event)
    ensures Run(es + [e]) == Step(Run(es), e)
  {
    assert (es + [e])[..|es|] == es;
  }

  /** One message from user 1 to user 2 in chat 5. */
  function OneMessage(content: Content): seq<Event> {
    [Elsewhere({(5, 1), (5, 2)}, {}, {}, {}), SendNew(10, 1, 5, content, 3)]
  }

  /** The tables after it. */
  function AfterOne(): State {
    State(map[10 := Message(5, Some(1), 3, false)],
          map[(10, 1) := StatusRow(Sent, 3), (10, 2) := StatusRow(Sent, 3)], {(5, 1), (5, 2)}, {}, {}, {})
  }

  lemma {:induction false} SecondMark()
    ensures var s := Mark(AfterOne(), 2, 5, 3, 4).0;
            var (t, count) := Mark(s, 2, 5, 3, 6);
            count == 1 && UnreadOf(s, 2, 5) == UnreadOf(t, 2, 5) == {}
  {
    var s := AfterOne();
    assert Touched(s, 2, 5, 3) == {10};
    MarkingAgainCounts(s, 2, 5, 3, 4, 6);
    MarkTakesReached(s, 2, 5, 3, 4, 2, 5);
    assert Reached(s, 2, 5, 3) == {10} && UnreadOf(s, 2, 5) == {10};
  }

  lemma {:induction false} OneMessageSent(content: Content)
    requires !content.isText || (content.encrypted.Some? && content.iv.Some?)
    ensures Run(OneMessage(content)) == AfterOne()
  {
    var first := Elsewhere({(5, 1), (5, 2)}, {}, {}, {});
    RunSnoc([], first);
    RunSnoc([first], SendNew(10, 1, 5, content, 3));
    assert [] + [first] == [first] && [first] + [SendNew(10, 1, 5, content, 3)] == OneMessage(content);
    var s := Run([first]);
    assert s == EMPTY.(members := {(5, 1), (5, 2)});
    var t := Step(s, SendNew(10, 1, 5, content, 3));
    assert t.statuses == map[(10, 1) := StatusRow(Sent, 3), (10, 2) := StatusRow(Sent, 3)];
  }

  /** From the empty tables: a second mark up to time 3 reports one message and takes none from the count. */
  lemma {:induction false} CountWithoutDropIsReachable(content: Content)
    requires !content.isText || (content.encrypted.Some? && content.iv.Some?)
    ensures var s := Run(OneMessage(content) + [MarkRead(2, 5, 3, 4)]);
            var (t, count) := Mark(s, 2, 5, 3, 6);
            count == 1 && UnreadOf(s, 2, 5) == UnreadOf(t, 2, 5) == {}
  {
    OneMessageSent(content);
    RunSnoc(OneMessage(content), MarkRead(2, 5, 3, 4));
    SecondMark();
  }

  // ---- The repository -------------------------------------------------------------------------

  class MessageStore {
    var messages: map<Uuid, Message>
    var statuses: map<(Uuid, Uuid), StatusRow>
    var members: set<(Uuid, Uuid)>
    var closed: set<Uuid>
    var privates: set<Uuid>
    var blocks: set<(Uuid, Uuid)>

    function Contents(): State
      reads this
    {
      State(messages, statuses, members, closed, privates, blocks)
    }

    constructor ()
      ensures Contents() == EMPTY
    {
      messages, statuses, members, closed, privates, blocks := map[], map[], {}, {}, {}, {};
    }

    method SendMessage(id: Uuid, sender: Uuid, chat: Uuid, content: Content, now: Time) returns (r: Result<(), SendError>)
      requires id !in messages
      modifies this`messages, this`statuses
      ensures (Contents(), r) == Send(old(Contents()), id, sender, chat, content, now)
    {
      if (chat, sender) !in members || chat in closed {
        return Err(NotFound);
      }
      if chat in privates && IsBlocked(Contents(), sender, chat) {
        return Err(Blocked);
      }
      if content.isText && (content.encrypted.None? || content.iv.None?) {
        return Err(Incomplete);
      }
      messages := messages[id := Message(chat, Some(sender), now, false)];
      var rows := map p | p in members && p.0 == chat :: (id, p.1) := StatusRow(Sent, now);
      statuses := rows + statuses;
      return Ok(());
    }

    method DeleteMessage(user: Uuid, id: Uuid) returns (found: bool)
      modifies this`messages
      ensures (Contents(), found) == Delete(old(Contents()), user, id)
    {
      found := id in messages && messages[id].sender == Some(user) && !messages[id].deleted;
      if found {
        messages := messages[id := messages[id].(deleted := true)];
      }
    }

    method MarkMessagesRead(user: Uuid, chat: Uuid, upTo: Time, now: Time) returns (updated: nat)
      modifies this`statuses
      ensures (Contents(), updated) == Mark(old(Contents()), user, chat, upTo, now)
    {
      var touched := Touched(Contents(), user, chat, upTo);
      statuses := map k | k in statuses :: if k.1 == user && k.0 in touched then StatusRow(Read, now) else statuses[k];
      updated := |touched|;
    }
  }
}
