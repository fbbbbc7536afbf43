/**
 Call lifecycle: the call records, the repository operations on them, the service's
 rules, and the WebSocket events, each event taken as one step.
 */
module Calls {
  import opened Prelude

  datatype CallType = Audio | Video

  datatype CallStatus = Initiated | Ringing | Answered | Ended | Missed | Rejected | Busy

  predicate IsActive(s: CallStatus) {
    s.Initiated? || s.Ringing? || s.Answered?
  }

  datatype Call = Call(
    caller: Uuid,
    receiver: Uuid,
    callType: CallType,
    status: CallStatus,
    startedAt: Option<Time>,
    endedAt: Option<Time>)

  datatype CallError = BadRequest | Conflict | NotFound | Unauthorized

  type Table = map<nat, Call>

  // ---- Repository statements -------------------------------------------------------------

  function Inserted(t: Table, id: nat, caller: Uuid, receiver: Uuid, callType: CallType): Table {
    t[id := Call(caller, receiver, callType, Initiated, None, None)]
  }

  /** `started_at = COALESCE($3, started_at), ended_at = $4`. */
  function Updated(c: Call, status: CallStatus, startedAt: Option<Time>, endedAt: Option<Time>): Call {
    c.(status := status, startedAt := if startedAt.Some? then startedAt else c.startedAt, endedAt := endedAt)
  }

  predicate Involves(c: Call, user: Uuid) {
    c.caller == user || c.receiver == user
  }

  predicate ActiveFor(t: Table, id: nat, user: Uuid) {
    id in t && IsActive(t[id].status) && Involves(t[id], user)
  }

  predicate InActiveCall(t: Table, user: Uuid) {
    exists id :: id in t && ActiveFor(t, id, user)
  }

  // ---- Service operations ------------------------------------------------------------------

  function InitiateCall(t: Table, id: nat, caller: Uuid, receiver: Uuid, callType: CallType): (Table, Result<Call, CallError>) {
    if caller == receiver then (t, Err(BadRequest))
    else if InActiveCall(t, receiver) then (t, Err(Conflict))
    else if InActiveCall(t, caller) then (t, Err(Conflict))
    else (Inserted(t, id, caller, receiver, callType), Ok(Inserted(t, id, caller, receiver, callType)[id]))
  }

  function MarkRinging(t: Table, id: nat): Table {
    if id in t then t[id := Updated(t[id], Ringing, None, None)] else t
  }

  function AcceptCall(t: Table, id: nat, user: Uuid, now: Time): (Table, Result<Call, CallError>) {
    if id !in t then (t, Err(NotFound))
    else if t[id].receiver != user then (t, Err(Unauthorized))
    else if !(t[id].status.Initiated? || t[id].status.Ringing?) then (t, Err(BadRequest))
    else
      var c := Updated(t[id], Answered, Some(now), None);
      (t[id := c], Ok(c))
  }

  function EndCall(t: Table, id: nat, user: Uuid, requested: CallStatus, now: Time): (Table, Result<Call, CallError>) {
    if id !in t then (t, Err(NotFound))
    else if !Involves(t[id], user) then (t, Err(Unauthorized))
    else if !IsActive(t[id].status) then (t, Err(BadRequest))
    else if IsActive(requested) then (t, Err(BadRequest))
    else
      var c := Updated(t[id], requested, t[id].startedAt, Some(now));
      (t[id := c], Ok(c))
  }

  // ---- WebSocket events --------------------------------------------------------------------

  datatype Event =
    | CallInitiate(id: nat, caller: Uuid, receiver: Uuid, callType: CallType)
    | CallAccept(id: nat, user: Uuid, now: Time)
    | CallReject(id: nat, user: Uuid, busy: bool, now: Time)
    | CallHangup(id: nat, user: Uuid, now: Time)

  /** Hanging up tries `ended` first and falls back to `missed`. */
  function Hangup(t: Table, id: nat, user: Uuid, now: Time): (Table, Result<Call, CallError>) {
    var first := EndCall(t, id, user, Ended, now);
    if first.1.Ok? then first else EndCall(t, id, user, Missed, now)
  }

  /** Call ids are fresh random UUIDs, so an initiate never reuses one. */
  function Step(t: Table, e: Event): Table {
    match e
    case CallInitiate(id, caller, receiver, callType) =>
      if id in t then t else
        var (t', r) := InitiateCall(t, id, caller, receiver, callType);
        if r.Ok? then MarkRinging(t', id) else t'
    case CallAccept(id, user, now) => AcceptCall(t, id, user, now).0
    case CallReject(id, user, busy, now) => EndCall(t, id, user, if busy then Busy else Rejected, now).0
    case CallHangup(id, user, now) => Hangup(t, id, user, now).0
  }

  function Run(t: Table, es: seq<Event>): Table {
    if es == [] then t else Step(Run(t, es[..|es| - 1]), es[|es| - 1])
  }

  // ---- What every run keeps ------------------------------------------------------------------

  /** Each user is in at most one active call. */
  ghost predicate OneActive(t: Table) {
    forall i, j, u :: ActiveFor(t, i, u) && ActiveFor(t, j, u) ==> i == j
  }

  /** Start and end times agree with the status, and nobody calls themselves. */
  ghost predicate RecordOk(c: Call) {
    && c.caller != c.receiver
    && (c.endedAt.None? <==> IsActive(c.status))
    && (c.status.Answered? ==> c.startedAt.Some?)
  }

  ghost predicate Inv(t: Table) {
    OneActive(t) && forall id :: id in t ==> RecordOk(t[id])
  }

  /** Steps left before the call is over; a call only ever moves down. */
  function Rank(s: CallStatus): nat {
    match s
    case Initiated => 3
    case Ringing => 2
    case Answered => 1
    case _ => 0
  }

  lemma {:induction false} InitiateKeeps(t: Table, e: Event)
    requires Inv(t) && e.CallInitiate?
    ensures Inv(Step(t, e))
  {
    var t' := Step(t, e);
    if t' != t {
      forall i, j, u | ActiveFor(t', i, u) && ActiveFor(t', j, u) ensures i == j {
        if i != e.id {
          assert ActiveFor(t, i, u);
        }
        if j != e.id {
          assert ActiveFor(t, j, u);
        }
      }
    }
  }

  lemma {:induction false} StepKeeps(t: Table, e: Event)
    requires Inv(t)
    ensures Inv(Step(t, e))
  {
    if e.CallInitiate? {
      InitiateKeeps(t, e);
    } else {
      var t' := Step(t, e);
      forall i, j, u | ActiveFor(t', i, u) && ActiveFor(t', j, u) ensures i == j {
        assert ActiveFor(t, i, u) && ActiveFor(t, j, u);
      }
    }
  }

  /** In every reachable state each user is in at most one active call, and every record is consistent. */
  lemma {:induction false} EachUserInOneActiveCall(es: seq<Event>)
    ensures Inv(Run(map[], es))
  {
    if es != [] {
      EachUserInOneActiveCall(es[..|es| - 1]);
      StepKeeps(Run(map[], es[..|es| - 1]), es[|es| - 1]);
    }
  }

  /** Parties and type of a call never change, and whatever changes it moves it strictly down. */
  lemma {:induction false} StepDescends(t: Table, e: Event, id: nat)
    requires id in t
    ensures var t' := Step(t, e);
            && id in t'
            && t'[id].caller == t[id].caller && t'[id].receiver == t[id].receiver && t'[id].callType == t[id].callType
            && (t[id].startedAt.Some? ==> t'[id].startedAt.Some?)
            && (t'[id] == t[id] || Rank(t'[id].status) < Rank(t[id].status))
  {
  }

  /** Number of events of the run that changed this call. */
  ghost function Changes(t: Table, es: seq<Event>, id: nat): nat {
    if es == [] then 0 else
      var before := Run(t, es[..|es| - 1]);
      var after := Step(before, es[|es| - 1]);
      Changes(t, es[..|es| - 1], id) + if id in before && id in after && after[id] != before[id] then 1 else 0
  }

  /** A call changes at most Rank times, and a terminal call never changes again. */
  lemma {:induction false} CallsSettle(t: Table, es: seq<Event>, id: nat)
    requires id in t
    ensures var t' := Run(t, es);
            && id in t'
            && Rank(t'[id].status) + Changes(t, es, id) <= Rank(t[id].status)
            && (Changes(t, es, id) == 0 ==> t'[id] == t[id])
    ensures !IsActive(t[id].status) ==> Run(t, es)[id] == t[id]
  {
    if es != [] {
      var n := |es| - 1;
      CallsSettle(t, es[..n], id);
      StepDescends(Run(t, es[..n]), es[n], id);
    }
  }

  /** Either participant of an active call, and nobody else, can end it with any terminal status. */
  lemma {:induction false} ParticipantsCanEnd(t: Table, id: nat, user: Uuid, requested: CallStatus, now: Time)
    ensures var (t', r) := EndCall(t, id, user, requested, now);
            && (r.Ok? <==> ActiveFor(t, id, user) && !IsActive(requested))
            && (r.Ok? ==>
                  && t'[id].status == requested && t'[id].endedAt == Some(now)
                  && t'[id].startedAt == t[id].startedAt
                  && (OneActive(t) ==> !InActiveCall(t', t[id].caller) && !InActiveCall(t', t[id].receiver)))
            && (r.Err? ==> t' == t)
  {
    var (t', r) := EndCall(t, id, user, requested, now);
    if r.Ok? && OneActive(t) {
      forall u, i | Involves(t[id], u) && ActiveFor(t', i, u) ensures false {
        assert ActiveFor(t, i, u) && ActiveFor(t, id, u);
      }
    }
  }

  /** A new call needs both parties idle, and then it is the one active call of both. */
  lemma {:induction false} InitiateNeedsIdleParties(t: Table, id: nat, caller: Uuid, receiver: Uuid, callType: CallType)
    requires id !in t
    ensures var (t', r) := InitiateCall(t, id, caller, receiver, callType);
            && (r.Ok? <==> caller != receiver && !InActiveCall(t, caller) && !InActiveCall(t, receiver))
            && (r.Ok? ==> r.value == Call(caller, receiver, callType, Initiated, None, None) && t' == t[id := r.value])
            && (r.Ok? ==> forall i, u :: (u == caller || u == receiver) ==> (ActiveFor(t', i, u) <==> i == id))
            && (r.Err? ==> t' == t)
  {
    var (t', r) := InitiateCall(t, id, caller, receiver, callType);
    if r.Ok? {
      forall i, u | u == caller || u == receiver ensures ActiveFor(t', i, u) <==> i == id {
        if i != id && ActiveFor(t', i, u) {
          assert ActiveFor(t, i, u);
        }
      }
    }
  }

  /** Taken as one step, hanging up always ends with `ended`; the fallback to `missed` never succeeds. */
  lemma {:induction false} HangupNeverMissed(t: Table, id: nat, user: Uuid, now: Time)
    ensures var (t', r) := Hangup(t, id, user, now);
            && (r.Ok? <==> ActiveFor(t, id, user))
            && (r.Ok? ==> r.value.status == Ended && t' == t[id := r.value])
            && (r.Err? ==> t' == t)
  {
    ParticipantsCanEnd(t, id, user, Ended, now);
    ParticipantsCanEnd(t, id, user, Missed, now);
  }

  /** Exactly who may accept which call, and what accepting does. */
  lemma {:induction false} OnlyReceiverAccepts(t: Table, id: nat, user: Uuid, now: Time)
    ensures var (t', r) := AcceptCall(t, id, user, now);
            && (r.Ok? <==> id in t && t[id].receiver == user && (t[id].status == Initiated || t[id].status == Ringing))
            && (r.Ok? ==>
                  && t' == t[id := Call(t[id].caller, user, t[id].callType, Answered, Some(now), t'[id].endedAt)]
                  && t'[id].endedAt == None && r.value == t'[id])
            && (r.Err? ==> t' == t)
            && (r == Err(NotFound) <==> id !in t)
            && (r == Err(Unauthorized) <==> id in t && t[id].receiver != user)
            && (r == Err(BadRequest) <==>
                  id in t && t[id].receiver == user && t[id].status in {Answered, Ended, Missed, Rejected, Busy})
  {
  }

  /** The refusals of ending a call, in the order of the checks. */
  lemma {:induction false} EndRefusals(t: Table, id: nat, user: Uuid, requested: CallStatus, now: Time)
    ensures var r := EndCall(t, id, user, requested, now).1;
            && (r == Err(NotFound) <==> id !in t)
            && (r == Err(Unauthorized) <==> id in t && t[id].caller != user && t[id].receiver != user)
            && (r == Err(BadRequest) <==>
                  id in t && (t[id].caller == user || t[id].receiver == user)
                  && (t[id].status in {Ended, Missed, Rejected, Busy} || requested in {Initiated, Ringing, Answered}))
  {
  }

  /** A placed call rings at its receiver, and a call between busy or equal users is not stored. */
  lemma {:induction false} PlacedCallRings(t: Table, id: nat, caller: Uuid, receiver: Uuid, callType: CallType)
    requires id !in t
    ensures var t' := Step(t, CallInitiate(id, caller, receiver, callType));
            if caller != receiver && !InActiveCall(t, caller) && !InActiveCall(t, receiver)
            then t' == t[id := Call(caller, receiver, callType, Ringing, None, None)]
            else t' == t
    ensures var r := InitiateCall(t, id, caller, receiver, callType).1;
            && (r == Err(BadRequest) <==> caller == receiver)
            && (r == Err(Conflict) <==> caller != receiver && (InActiveCall(t, caller) || InActiveCall(t, receiver)))
  {
  }

  // ---- Every record is explained by events -------------------------------------------------------

  /** The event that gave a call its status. */
  ghost predicate Explains(e: Event, id: nat, c: Call) {
    match c.status
    case Initiated => false
    case Ringing => e == CallInitiate(id, c.caller, c.receiver, c.callType)
    case Answered => c.startedAt.Some? && e == CallAccept(id, c.receiver, c.startedAt.value)
    case Ended => c.endedAt.Some? && (e == CallHangup(id, c.caller, c.endedAt.value) || e == CallHangup(id, c.receiver, c.endedAt.value))
    case Missed => false
    case Rejected => c.endedAt.Some? && (e == CallReject(id, c.caller, false, c.endedAt.value) || e == CallReject(id, c.receiver, false, c.endedAt.value))
    case Busy => c.endedAt.Some? && (e == CallReject(id, c.caller, true, c.endedAt.value) || e == CallReject(id, c.receiver, true, c.endedAt.value))
  }

  ghost predicate Explained(es: seq<Event>, id: nat, c: Call) {
    && (exists i :: 0 <= i < |es| && Explains(es[i], id, c))
    && CallInitiate(id, c.caller, c.receiver, c.callType) in es
    && (c.startedAt.Some? ==> CallAccept(id, c.receiver, c.startedAt.value) in es)
  }

  lemma {:induction false} StepExplains(t: Table, e: Event, id: nat)
    requires id in Step(t, e) && (id !in t || Step(t, e)[id] != t[id])
    requires id in t ==> RecordOk(t[id])
    ensures var c := Step(t, e)[id];
            && Explains(e, id, c)
            && (if id in t then c.caller == t[id].caller && c.receiver == t[id].receiver && c.callType == t[id].callType
                else e == CallInitiate(id, c.caller, c.receiver, c.callType))
            && (c.startedAt.Some? ==>
                  e == CallAccept(id, c.receiver, c.startedAt.value) || (id in t && c.startedAt == t[id].startedAt))
  {
    if e.CallHangup? {
      HangupNeverMissed(t, e.id, e.user, e.now);
    }
  }

  lemma {:induction false} ExplainedLasts(es: seq<Event>, e: Event, id: nat, c: Call)
    requires Explained(es, id, c)
    ensures Explained(es + [e], id, c)
  {
    var i :| 0 <= i < |es| && Explains(es[i], id, c);
    assert (es + [e])[i] == es[i];
  }

  /**
   Over all runs, every call has the parties and type of the event that placed it, and its
   status and times come from an event by a user who may cause them: it is answered by its
   receiver, and ended, rejected or turned down as busy by one of its two parties.
   */
  lemma {:induction false} EventsExplainCalls(es: seq<Event>, id: nat)
    requires id in Run(map[], es)
    ensures Explained(es, id, Run(map[], es)[id])
  {
    var n := |es| - 1;
    var t, c := Run(map[], es[..n]), Run(map[], es)[id];
    EachUserInOneActiveCall(es[..n]);
    assert es == es[..n] + [es[n]];
    if id in t {
      EventsExplainCalls(es[..n], id);
      ExplainedLasts(es[..n], es[n], id, t[id]);
      if c != t[id] {
        StepExplains(t, es[n], id);
        assert Explains(es[n], id, c);
      }
    } else {
      StepExplains(t, es[n], id);
      assert Explains(es[n], id, c);
    }
  }

  // ---- The repository and the service ---------------------------------------------------------

  class CallRepository {
    var calls: Table

    constructor ()
      ensures calls == map[]
    {
      calls := map[];
    }

    method Create(id: nat, caller: Uuid, receiver: Uuid, callType: CallType) returns (c: Call)
      requires id !in calls
      modifies this
      ensures calls == Inserted(old(calls), id, caller, receiver, callType) && c == calls[id]
    {
      c := Call(caller, receiver, callType, Initiated, None, None);
      calls := calls[id := c];
    }

    method FindById(id: nat) returns (c: Option<Call>)
      ensures c == if id in calls then Some(calls[id]) else None
    {
      c := if id in calls then Some(calls[id]) else None;
    }

    method UpdateStatus(id: nat, status: CallStatus, startedAt: Option<Time>, endedAt: Option<Time>)
      returns (r: Result<Call, CallError>)
      modifies this
      ensures id in old(calls) ==> calls == old(calls)[id := Updated(old(calls)[id], status, startedAt, endedAt)] && r == Ok(calls[id])
      ensures id !in old(calls) ==> calls == old(calls) && r == Err(NotFound)
    {
      if id !in calls {
        return Err(NotFound);
      }
      var c := calls[id];
      c := c.(status := status, endedAt := endedAt);
      if startedAt.Some? {
        c := c.(startedAt := startedAt);
      }
      calls := calls[id := c];
      return Ok(c);
    }

    method IsUserInActiveCall(user: Uuid) returns (busy: bool)
      ensures busy == InActiveCall(calls, user)
    {
      busy := exists id :: id in calls && ActiveFor(calls, id, user);
    }
  }

  class CallService {
    const repo: CallRepository

    constructor (repo: CallRepository)
      ensures this.repo == repo
    {
      this.repo := repo;
    }

    method Initiate(id: nat, caller: Uuid, receiver: Uuid, callType: CallType) returns (r: Result<Call, CallError>)
      requires id !in repo.calls
      modifies repo
      ensures (repo.calls, r) == InitiateCall(old(repo.calls), id, caller, receiver, callType)
    {
      if caller == receiver {
        return Err(BadRequest);
      }
      var receiverBusy := repo.IsUserInActiveCall(receiver);
      if receiverBusy {
        return Err(Conflict);
      }
      var callerBusy := repo.IsUserInActiveCall(caller);
      if callerBusy {
        return Err(Conflict);
      }
      var c := repo.Create(id, caller, receiver, callType);
      return Ok(c);
    }

    method Ring(id: nat) returns (r: Result<Call, CallError>)
      modifies repo
      ensures repo.calls == MarkRinging(old(repo.calls), id)
      ensures r == if id in repo.calls then Ok(repo.calls[id]) else Err(NotFound)
    {
      r := repo.UpdateStatus(id, Ringing, None, None);
    }

    method Accept(id: nat, user: Uuid, now: Time) returns (r: Result<Call, CallError>)
      modifies repo
      ensures (repo.calls, r) == AcceptCall(old(repo.calls), id, user, now)
    {
      var found := repo.FindById(id);
      if found.None? {
        return Err(NotFound);
      }
      if found.value.receiver != user {
        return Err(Unauthorized);
      }
      if !(found.value.status.Initiated? || found.value.status.Ringing?) {
        return Err(BadRequest);
      }
      r := repo.UpdateStatus(id, Answered, Some(now), None);
    }

    method End(id: nat, user: Uuid, requested: CallStatus, now: Time) returns (r: Result<Call, CallError>)
      modifies repo
      ensures (repo.calls, r) == EndCall(old(repo.calls), id, user, requested, now)
    {
      var found := repo.FindById(id);
      if found.None? {
        return Err(NotFound);
      }
      var call := found.value;
      if call.caller != user && call.receiver != user {
        return Err(Unauthorized);
      }
      if !IsActive(call.status) {
        return Err(BadRequest);
      }
      match requested
      case Ended | Missed | Rejected | Busy =>
        r := repo.UpdateStatus(id, requested, call.startedAt, Some(now));
      case _ =>
        return Err(BadRequest);
    }

    /** The `call:initiate` branch: create, then mark as ringing. */
    method HandleInitiate(id: nat, caller: Uuid, receiver: Uuid, callType: CallType)
      requires id !in repo.calls
      modifies repo
      ensures repo.calls == Step(old(repo.calls), CallInitiate(id, caller, receiver, callType))
    {
      var r := Initiate(id, caller, receiver, callType);
      if r.Ok? {
        var _ := Ring(id);
      }
    }

    /** The `call:hangup` branch. */
    method HandleHangup(id: nat, user: Uuid, now: Time)
      modifies repo
      ensures repo.calls == Step(old(repo.calls), CallHangup(id, user, now))
    {
      var r := End(id, user, Ended, now);
      if r.Err? {
        r := End(id, user, Missed, now);
      }
    }
  }
}
