/**
 The same call events with their database calls interleaved: every event runs as a task
 whose reads, checks and updates are separate steps.
 */
module CallInterleaving {
  import opened Prelude
  import opened Calls

  /** What a task does next; each constructor is one database call. */
  datatype Task =
    | CheckReceiver(caller: Uuid, receiver: Uuid, callType: CallType)
    | CheckCaller(caller: Uuid, receiver: Uuid, callType: CallType)
    | Insert(caller: Uuid, receiver: Uuid, callType: CallType)
    | Ring(id: nat)
    | AcceptRead(id: nat, user: Uuid)
    | AcceptWrite(id: nat)
    | EndRead(id: nat, user: Uuid, requested: CallStatus, fallback: bool)
    | EndWrite(id: nat, status: CallStatus, startedAt: Option<Time>)
    | Done

  datatype State = State(calls: Table, tasks: map<nat, Task>)

  const EMPTY := State(map[], map[])

  datatype Event =
    | Initiate(task: nat, caller: Uuid, receiver: Uuid, callType: CallType)
    | Accept(task: nat, id: nat, user: Uuid)
    | Reject(task: nat, id: nat, user: Uuid, busy: bool)
    | Hangup(task: nat, id: nat, user: Uuid)
    | Advance(task: nat, newId: nat, now: Time)

  function Spawn(s: State, task: nat, t: Task): State {
    if task in s.tasks then s else s.(tasks := s.tasks[task := t])
  }

  /** One database call of a task; `newId` is the fresh id an insert draws. */
  function Next(calls: Table, t: Task, newId: nat, now: Time): (Table, Task) {
    match t
    case CheckReceiver(caller, receiver, ty) =>
      if caller == receiver || InActiveCall(calls, receiver) then (calls, Done) else (calls, CheckCaller(caller, receiver, ty))
    case CheckCaller(caller, receiver, ty) =>
      if InActiveCall(calls, caller) then (calls, Done) else (calls, Insert(caller, receiver, ty))
    case Insert(caller, receiver, ty) =>
      if newId in calls then (calls, t) else (Inserted(calls, newId, caller, receiver, ty), Ring(newId))
    case Ring(id) => (MarkRinging(calls, id), Done)
    case AcceptRead(id, user) =>
      if id in calls && calls[id].receiver == user && (calls[id].status.Initiated? || calls[id].status.Ringing?)
      then (calls, AcceptWrite(id)) else (calls, Done)
    case AcceptWrite(id) =>
      if id in calls then (calls[id := Updated(calls[id], Answered, Some(now), None)], Done) else (calls, Done)
    case EndRead(id, user, requested, fallback) =>
      if id in calls && Involves(calls[id], user) && IsActive(calls[id].status)
      then (calls, EndWrite(id, requested, calls[id].startedAt))
      else (calls, if fallback then EndRead(id, user, Missed, false) else Done)
    case EndWrite(id, status, startedAt) =>
      if id in calls then (calls[id := Updated(calls[id], status, startedAt, Some(now))], Done) else (calls, Done)
    case Done => (calls, Done)
  }

  function Step(s: State, e: Event): State {
    match e
    case Initiate(task, caller, receiver, ty) => Spawn(s, task, CheckReceiver(caller, receiver, ty))
    case Accept(task, id, user) => Spawn(s, task, AcceptRead(id, user))
    case Reject(task, id, user, busy) => Spawn(s, task, EndRead(id, user, if busy then Busy else Rejected, false))
    case Hangup(task, id, user) => Spawn(s, task, EndRead(id, user, Ended, true))
    case Advance(task, newId, now) =>
      if task !in s.tasks then s else
        var (calls, t) := Next(s.calls, s.tasks[task], newId, now);
        State(calls, s.tasks[task := t])
  }

  function Run(s: State, es: seq<Event>): State {
    if es == [] then s else Step(Run(s, es[..|es| - 1]), es[|es| - 1])
  }

  // ---- The atomic events ---------------------------------------------------------------------

  function FirstTask(e: Calls.Event): Task {
    match e
    case CallInitiate(_, caller, receiver, ty) => CheckReceiver(caller, receiver, ty)
    case CallAccept(id, user, _) => AcceptRead(id, user)
    case CallReject(id, user, busy, _) => EndRead(id, user, if busy then Busy else Rejected, false)
    case CallHangup(id, user, _) => EndRead(id, user, Ended, true)
  }

  /** The same event as a request that runs in its own task. */
  function Request(p: nat, e: Calls.Event): Event {
    match e
    case CallInitiate(_, caller, receiver, ty) => Initiate(p, caller, receiver, ty)
    case CallAccept(id, user, _) => Accept(p, id, user)
    case CallReject(id, user, busy, _) => Reject(p, id, user, busy)
    case CallHangup(id, user, _) => Hangup(p, id, user)
  }

  lemma RequestStarts(s: State, p: nat, e: Calls.Event)
    requires p !in s.tasks
    ensures Step(s, Request(p, e)) == State(s.calls, s.tasks[p := FirstTask(e)])
  {
  }

  /** `n` database calls of one task with nothing in between. */
  function Alone(calls: Table, t: Task, newId: nat, now: Time, n: nat): (Table, Task)
    decreases n
  {
    if n == 0 then (calls, t) else
      var (after, next) := Next(calls, t, newId, now);
      Alone(after, next, newId, now, n - 1)
  }

  lemma AloneOnce(calls: Table, t: Task, newId: nat, now: Time, n: nat)
    requires n > 0
    ensures var (after, next) := Next(calls, t, newId, now);
            Alone(calls, t, newId, now, n) == Alone(after, next, newId, now, n - 1)
  {
  }

  lemma {:induction false} DoneAlone(calls: Table, newId: nat, now: Time, n: nat)
    ensures Alone(calls, Done, newId, now, n) == (calls, Done)
  {
    if n > 0 {
      DoneAlone(calls, newId, now, n - 1);
    }
  }

  lemma {:induction false} InitiateAlone(calls: Table, id: nat, caller: Uuid, receiver: Uuid, ty: CallType, now: Time)
    requires id !in calls
    ensures var e := CallInitiate(id, caller, receiver, ty);
            Alone(calls, FirstTask(e), id, now, 4) == (Calls.Step(calls, e), Done)
  {
    AloneOnce(calls, CheckReceiver(caller, receiver, ty), id, now, 4);
    if caller == receiver || InActiveCall(calls, receiver) {
      DoneAlone(calls, id, now, 3);
    } else {
      AloneOnce(calls, CheckCaller(caller, receiver, ty), id, now, 3);
      if InActiveCall(calls, caller) {
        DoneAlone(calls, id, now, 2);
      } else {
        AloneOnce(calls, Insert(caller, receiver, ty), id, now, 2);
        AloneOnce(Inserted(calls, id, caller, receiver, ty), Ring(id), id, now, 1);
      }
    }
  }

  lemma {:induction false} EndAlone(calls: Table, id: nat, user: Uuid, requested: CallStatus, newId: nat, now: Time, n: nat)
    requires !IsActive(requested)
    ensures Alone(calls, EndRead(id, user, requested, false), newId, now, n + 2) == (EndCall(calls, id, user, requested, now).0, Done)
  {
    var t := EndRead(id, user, requested, false);
    AloneOnce(calls, t, newId, now, n + 2);
    var (after, next) := Next(calls, t, newId, now);
    AloneOnce(after, next, newId, now, n + 1);
    DoneAlone(Next(after, next, newId, now).0, newId, now, n);
  }

  /** An event whose task runs undisturbed does what the atomic event does. */
  lemma {:induction false} UndisturbedIsAtomic(calls: Table, e: Calls.Event, newId: nat, now: Time)
    requires match e
             case CallInitiate(id, _, _, _) => id == newId && newId !in calls
             case CallAccept(_, _, at) => at == now
             case CallReject(_, _, _, at) => at == now
             case CallHangup(_, _, at) => at == now
    ensures Alone(calls, FirstTask(e), newId, now, 4) == (Calls.Step(calls, e), Done)
  {
    match e
    case CallInitiate(id, caller, receiver, ty) => InitiateAlone(calls, id, caller, receiver, ty, now);
    case CallAccept(id, user, _) =>
      AloneOnce(calls, AcceptRead(id, user), newId, now, 4);
      var (after, next) := Next(calls, AcceptRead(id, user), newId, now);
      AloneOnce(after, next, newId, now, 3);
      DoneAlone(Next(after, next, newId, now).0, newId, now, 2);
    case CallReject(id, user, busy, _) => EndAlone(calls, id, user, if busy then Busy else Rejected, newId, now, 2);
    case CallHangup(id, user, _) =>
      HangupNeverMissed(calls, id, user, now);
      AloneOnce(calls, EndRead(id, user, Ended, true), newId, now, 4);
      if ActiveFor(calls, id, user) {
        var (after, next) := Next(calls, EndRead(id, user, Ended, true), newId, now);
        AloneOnce(after, next, newId, now, 3);
        DoneAlone(Next(after, next, newId, now).0, newId, now, 2);
      } else {
        EndAlone(calls, id, user, Missed, newId, now, 1);
      }
  }

  // ---- What survives interleaving -----------------------------------------------------------

  ghost predicate TaskOk(t: Task) {
    match t
    case CheckCaller(caller, receiver, _) => caller != receiver
    case Insert(caller, receiver, _) => caller != receiver
    case EndRead(_, _, requested, _) => !IsActive(requested)
    case EndWrite(_, status, _) => !IsActive(status)
    case _ => true
  }

  ghost predicate Inv(s: State) {
    && (forall id :: id in s.calls ==> RecordOk(s.calls[id]))
    && (forall p :: p in s.tasks ==> TaskOk(s.tasks[p]))
  }

  lemma {:induction false} StepKeeps(s: State, e: Event)
    requires Inv(s)
    ensures Inv(Step(s, e))
  {
    if e.Advance? && e.task in s.tasks {
      var t := s.tasks[e.task];
      assert TaskOk(t);
      var (calls, t') := Next(s.calls, t, e.newId, e.now);
      assert TaskOk(t');
      assert forall id :: id in calls ==> RecordOk(calls[id]);
    }
  }

  /** In every reachable state `ended_at` is unset exactly while active, and an answered call has started. */
  lemma {:induction false} RecordsStayConsistent(es: seq<Event>)
    ensures Inv(Run(EMPTY, es))
  {
    if es != [] {
      RecordsStayConsistent(es[..|es| - 1]);
      StepKeeps(Run(EMPTY, es[..|es| - 1]), es[|es| - 1]);
    }
  }

  /** Over any stretch of a run, calls keep their parties and type, and a start time is never cleared. */
  lemma {:induction false} PartiesAndStartKept(s: State, es: seq<Event>, id: nat)
    requires id in s.calls
    ensures var t := Run(s, es);
            && id in t.calls
            && t.calls[id].caller == s.calls[id].caller
            && t.calls[id].receiver == s.calls[id].receiver
            && t.calls[id].callType == s.calls[id].callType
            && (s.calls[id].startedAt.Some? ==> t.calls[id].startedAt.Some?)
  {
    if es != [] {
      PartiesAndStartKept(s, es[..|es| - 1], id);
    }
  }

  // ---- What does not survive ------------------------------------------------------------------

  /** No active call of this call's parties but this one. */
  ghost predicate AloneWith(calls: Table, id: nat, c: Call) {
    forall i, u :: ActiveFor(calls, i, u) && Involves(c, u) ==> i == id
  }

  /** The check that would have to hold at the moment of each update. */
  ghost predicate SafeUpdate(calls: Table, t: Task, newId: nat) {
    match t
    case Insert(caller, receiver, _) => newId in calls || (!InActiveCall(calls, caller) && !InActiveCall(calls, receiver))
    case Ring(id) => id in calls ==> AloneWith(calls, id, calls[id])
    case AcceptWrite(id) => id in calls ==> AloneWith(calls, id, calls[id])
    case _ => true
  }

  lemma {:induction false} SetActiveKeepsIff(calls: Table, id: nat, c: Call)
    requires OneActive(calls) && IsActive(c.status)
    requires id in calls ==> calls[id].caller == c.caller && calls[id].receiver == c.receiver
    ensures OneActive(calls[id := c]) <==> AloneWith(calls, id, c)
  {
    var t := calls[id := c];
    if AloneWith(calls, id, c) {
      forall i, j, u | ActiveFor(t, i, u) && ActiveFor(t, j, u) ensures i == j {
        assert i != id ==> ActiveFor(calls, i, u);
        assert j != id ==> ActiveFor(calls, j, u);
      }
    } else {
      var i, u :| ActiveFor(calls, i, u) && Involves(c, u) && i != id;
      assert ActiveFor(t, i, u) && ActiveFor(t, id, u);
    }
  }

  lemma {:induction false} AloneIsIdle(calls: Table, id: nat, c: Call)
    requires id !in calls
    ensures AloneWith(calls, id, c) <==> !InActiveCall(calls, c.caller) && !InActiveCall(calls, c.receiver)
  {
    if !AloneWith(calls, id, c) {
      var i, u :| ActiveFor(calls, i, u) && Involves(c, u) && i != id;
      assert ActiveFor(calls, i, u);
    }
    if i :| i in calls && ActiveFor(calls, i, c.caller) {
      assert Involves(c, c.caller);
    }
    if i :| i in calls && ActiveFor(calls, i, c.receiver) {
      assert Involves(c, c.receiver);
    }
  }

  /** Exactly which interleaved steps keep each user in at most one active call. */
  lemma {:induction false} StepKeepsOneActiveIff(s: State, task: nat, newId: nat, now: Time)
    requires Inv(s) && OneActive(s.calls) && task in s.tasks
    ensures OneActive(Step(s, Advance(task, newId, now)).calls) <==> SafeUpdate(s.calls, s.tasks[task], newId)
  {
    var t := s.tasks[task];
    assert TaskOk(t);
    match t
    case Insert(caller, receiver, ty) =>
      if newId !in s.calls {
        var c := Call(caller, receiver, ty, Initiated, None, None);
        SetActiveKeepsIff(s.calls, newId, c);
        AloneIsIdle(s.calls, newId, c);
      }
    case Ring(id) =>
      if id in s.calls {
        SetActiveKeepsIff(s.calls, id, Updated(s.calls[id], Ringing, None, None));
      }
    case AcceptWrite(id) =>
      if id in s.calls {
        SetActiveKeepsIff(s.calls, id, Updated(s.calls[id], Answered, Some(now), None));
      }
    case EndWrite(id, status, startedAt) =>
      var t' := Step(s, Advance(task, newId, now)).calls;
      forall i, j, u | ActiveFor(t', i, u) && ActiveFor(t', j, u) ensures i == j {
        assert ActiveFor(s.calls, i, u) && ActiveFor(s.calls, j, u);
      }
    case _ =>
  }

  lemma {:induction false} RunSnoc(s: State, es: seq<Event>, e: Event)
    ensures Run(s, es + [e]) == Step(Run(s, es), e)
  {
    assert (es + [e])[..|es|] == es;
  }

  lemma {:induction false} RunAppend(s: State, es: seq<Event>, fs: seq<Event>)
    ensures Run(s, es + fs) == Run(Run(s, es), fs)
  {
    if fs == [] {
      assert es + fs == es;
    } else {
      var n := |fs| - 1;
      RunAppend(s, es, fs[..n]);
      assert (es + fs)[..|es + fs| - 1] == es + fs[..n];
    }
  }

  lemma {:induction false} RunThree(s: State, a: Event, b: Event, c: Event)
    ensures Run(s, [a, b, c]) == Step(Step(Step(s, a), b), c)
  {
    RunSnoc(s, [], a);
    RunSnoc(s, [a], b);
    RunSnoc(s, [a, b], c);
    assert [] + [a] == [a] && [a] + [b] == [a, b] && [a, b] + [c] == [a, b, c];
  }

  /** One call placed up to its insert. */
  function Placing(task: nat, caller: Uuid, receiver: Uuid): seq<Event> {
    [Initiate(task, caller, receiver, Audio), Advance(task, 0, 0), Advance(task, 0, 0)]
  }

  lemma {:induction false} PlacingPasses(s: State, task: nat, caller: Uuid, receiver: Uuid)
    requires s.calls == map[] && task !in s.tasks && caller != receiver
    ensures Run(s, Placing(task, caller, receiver)) == s.(tasks := s.tasks[task := Insert(caller, receiver, Audio)])
  {
    RunThree(s, Initiate(task, caller, receiver, Audio), Advance(task, 0, 0), Advance(task, 0, 0));
    var s1 := Step(s, Initiate(task, caller, receiver, Audio));
    var s2 := Step(s1, Advance(task, 0, 0));
    assert s2 == s.(tasks := s.tasks[task := CheckCaller(caller, receiver, Audio)]);
    assert Step(s2, Advance(task, 0, 0)).tasks == s.tasks[task := Insert(caller, receiver, Audio)];
  }

  /** Two calls placed at once both pass the busy checks: user 1 ends up in two active calls. */
  lemma {:induction false} BusyCheckRaces()
    ensures exists es :: !OneActive(Run(EMPTY, es).calls)
  {
    var first, second := Placing(0, 1, 2), Placing(1, 1, 3);
    PlacingPasses(EMPTY, 0, 1, 2);
    var s1 := Run(EMPTY, first);
    PlacingPasses(s1, 1, 1, 3);
    RunAppend(EMPTY, first, second);
    var s2 := Run(EMPTY, first + second);
    RunSnoc(EMPTY, first + second, Advance(0, 10, 0));
    var es := first + second + [Advance(0, 10, 0)];
    RunSnoc(EMPTY, es, Advance(1, 11, 0));
    var end := Run(EMPTY, es + [Advance(1, 11, 0)]).calls;
    assert ActiveFor(end, 10, 1) && ActiveFor(end, 11, 1);
  }

  ghost predicate SafeAt(es: seq<Event>, n: nat)
    requires n < |es|
  {
    var s, e := Run(EMPTY, es[..n]), es[n];
    e.Advance? && e.task in s.tasks ==> SafeUpdate(s.calls, s.tasks[e.task], e.newId)
  }

  lemma StepAt(es: seq<Event>, n: nat)
    requires n < |es|
    ensures Run(EMPTY, es[..n + 1]) == Step(Run(EMPTY, es[..n]), es[n])
  {
    assert es[..n + 1][..n] == es[..n];
  }

  lemma {:induction false} SafeStepIff(es: seq<Event>, n: nat)
    requires n < |es| && OneActive(Run(EMPTY, es[..n]).calls)
    ensures OneActive(Step(Run(EMPTY, es[..n]), es[n]).calls) <==> SafeAt(es, n)
  {
    var s, e := Run(EMPTY, es[..n]), es[n];
    RecordsStayConsistent(es[..n]);
    if e.Advance? && e.task in s.tasks {
      StepKeepsOneActiveIff(s, e.task, e.newId, e.now);
    } else {
      assert Step(s, e).calls == s.calls;
    }
  }

  lemma {:induction false} SafeUpTo(es: seq<Event>, n: nat)
    requires n <= |es| && forall m: nat :: m < |es| ==> SafeAt(es, m)
    ensures OneActive(Run(EMPTY, es[..n]).calls)
  {
    if n > 0 {
      SafeUpTo(es, n - 1);
      assert SafeAt(es, n - 1);
      StepAt(es, n - 1);
      SafeStepIff(es, n - 1);
    }
  }

  /** Over all runs, every user is in at most one active call throughout exactly when every step is safe. */
  lemma {:induction false} OneActiveThroughoutIff(es: seq<Event>)
    ensures (forall n: nat :: n <= |es| ==> OneActive(Run(EMPTY, es[..n]).calls)) <==>
            (forall n: nat :: n < |es| ==> SafeAt(es, n))
  {
    if forall n: nat :: n < |es| ==> SafeAt(es, n) {
      forall n: nat | n <= |es| ensures OneActive(Run(EMPTY, es[..n]).calls) {
        SafeUpTo(es, n);
      }
    }
    if forall n: nat :: n <= |es| ==> OneActive(Run(EMPTY, es[..n]).calls) {
      forall n: nat | n < |es| ensures SafeAt(es, n) {
        assert OneActive(Run(EMPTY, es[..n + 1]).calls);
        StepAt(es, n);
        SafeStepIff(es, n);
      }
    }
  }

  // ---- Ended calls that come back ------------------------------------------------------------------

  /** A call placed by user 1 to user 2 and stored; its ringing update is still to come. */
  function Placed(): State {
    State(map[10 := Call(1, 2, Audio, Initiated, None, None)], map[0 := Ring(10)])
  }

  function PlacedRun(): seq<Event> {
    Placing(0, 1, 2) + [Advance(0, 10, 0)]
  }

  lemma {:induction false} PlacedIsReachable()
    ensures Run(EMPTY, PlacedRun()) == Placed()
  {
    PlacingPasses(EMPTY, 0, 1, 2);
    RunSnoc(EMPTY, Placing(0, 1, 2), Advance(0, 10, 0));
    assert Run(EMPTY, PlacedRun()).tasks == map[0 := Ring(10)];
  }

  /** One task that ends the call with the status it asks for: its read, then its write. */
  function Ending(task: nat, id: nat, user: Uuid, hangup: bool, now: Time): seq<Event> {
    [if hangup then Hangup(task, id, user) else Reject(task, id, user, false), Advance(task, 0, now), Advance(task, 0, now)]
  }

  function EndingStatus(hangup: bool): CallStatus { if hangup then Ended else Rejected }

  lemma {:induction false} EndingEnds(s: State, task: nat, id: nat, user: Uuid, hangup: bool, now: Time)
    requires task !in s.tasks && id in s.calls && IsActive(s.calls[id].status) && Involves(s.calls[id], user)
    ensures var c := s.calls[id];
            Run(s, Ending(task, id, user, hangup, now)) ==
            State(s.calls[id := Updated(c, EndingStatus(hangup), c.startedAt, Some(now))], s.tasks[task := Done])
  {
    var c, es := s.calls[id], Ending(task, id, user, hangup, now);
    RunThree(s, es[0], es[1], es[2]);
    var s1 := Step(s, es[0]);
    assert s1 == s.(tasks := s.tasks[task := EndRead(id, user, EndingStatus(hangup), hangup)]);
    var s2 := Step(s1, es[1]);
    assert s2 == s.(tasks := s.tasks[task := EndWrite(id, EndingStatus(hangup), c.startedAt)]);
    assert Step(s2, es[2]).tasks == s.tasks[task := Done];
  }

  /**
   If either party ends the call between the incoming event and the ringing update, by
   hanging up or by rejecting it, that update undoes it: the call is active again.
   */
  lemma {:induction false} RingingRevivesEndedCall(s: State, ringer: nat, ender: nat, id: nat, user: Uuid, hangup: bool, now: Time)
    requires ringer in s.tasks && s.tasks[ringer] == Ring(id) && ender !in s.tasks
    requires id in s.calls && IsActive(s.calls[id].status) && Involves(s.calls[id], user)
    ensures var c := s.calls[id];
            var over := Run(s, Ending(ender, id, user, hangup, now));
            && id in over.calls
            && over.calls[id].status == EndingStatus(hangup) && over.calls[id].endedAt == Some(now)
            && id in Step(over, Advance(ringer, 0, now)).calls
            && Step(over, Advance(ringer, 0, now)).calls[id] == c.(status := Ringing, endedAt := None)
  {
    EndingEnds(s, ender, id, user, hangup, now);
  }

  /** The placed call, rejected by its receiver. */
  function RejectedCall(now: Time): State {
    State(map[10 := Call(1, 2, Audio, Rejected, None, Some(now))], map[0 := Ring(10), 1 := Done])
  }

  function RejectedRun(now: Time): seq<Event> {
    PlacedRun() + Ending(1, 10, 2, false, now)
  }

  lemma {:induction false} RejectedIsReachable(now: Time)
    ensures Run(EMPTY, RejectedRun(now)) == RejectedCall(now)
  {
    PlacedIsReachable();
    RunAppend(EMPTY, PlacedRun(), Ending(1, 10, 2, false, now));
    EndingEnds(Placed(), 1, 10, 2, false, now);
    assert Placed().tasks[1 := Done] == RejectedCall(now).tasks;
  }

  /** From the empty state: the receiver rejects the incoming call, and it rings on. */
  lemma {:induction false} RevivalIsReachable(now: Time)
    ensures Run(EMPTY, RejectedRun(now)).calls == map[10 := Call(1, 2, Audio, Rejected, None, Some(now))]
    ensures Run(EMPTY, RejectedRun(now) + [Advance(0, 0, now)]).calls == map[10 := Call(1, 2, Audio, Ringing, None, None)]
  {
    RejectedIsReachable(now);
    RunSnoc(EMPTY, RejectedRun(now), Advance(0, 0, now));
  }

  // ---- When a call ends as missed --------------------------------------------------------------------

  /** The fallback read of a hangup goes on to write `Missed` exactly when the user's call is active at that read. */
  lemma {:induction false} FallbackReadIff(calls: Table, id: nat, user: Uuid, newId: nat, now: Time)
    ensures Next(calls, EndRead(id, user, Missed, false), newId, now).1.EndWrite? <==> ActiveFor(calls, id, user)
    ensures Next(calls, EndRead(id, user, Ended, true), newId, now).1 == EndRead(id, user, Missed, false)
            <==> !ActiveFor(calls, id, user)
  {
  }

  /** The call is active at step `n` of the run. */
  ghost predicate ActiveAt(es: seq<Event>, n: nat, id: nat)
    requires n <= |es|
  {
    var calls := Run(EMPTY, es[..n]).calls;
    id in calls && IsActive(calls[id].status)
  }

  /** The call is stored at step `n`, and over. */
  ghost predicate OverAt(es: seq<Event>, n: nat, id: nat)
    requires n <= |es|
  {
    var calls := Run(EMPTY, es[..n]).calls;
    id in calls && !IsActive(calls[id].status)
  }

  /** The call was over at some step. */
  ghost predicate WasOver(es: seq<Event>, id: nat) {
    exists i: nat :: i <= |es| && OverAt(es, i, id)
  }

  ghost predicate BackAt(es: seq<Event>, i: nat, j: nat, id: nat)
    requires i < j <= |es|
  {
    OverAt(es, i, id) && ActiveAt(es, j, id)
  }

  /** The call was over at some step and active at a later one. */
  ghost predicate CameBack(es: seq<Event>, id: nat) {
    exists i: nat, j: nat :: i < j <= |es| && BackAt(es, i, j, id)
  }

  ghost predicate EarlyAt(es: seq<Event>, i: nat, id: nat)
    requires i < |es|
  {
    es[i].Hangup? && es[i].id == id && id !in Run(EMPTY, es[..i]).calls
  }

  /** Some hangup named this call before it was stored, guessing its fresh id. */
  ghost predicate Guessed(es: seq<Event>, id: nat) {
    exists i: nat :: i < |es| && EarlyAt(es, i, id)
  }

  /** What an unfinished hangup says about the run so far. */
  ghost predicate TaskStory(es: seq<Event>, t: Task) {
    var calls := Run(EMPTY, es).calls;
    match t
    case EndRead(id, user, requested, fallback) =>
      if fallback then requested == Ended && (id in calls || Guessed(es, id))
      else requested == Missed ==> Guessed(es, id) || WasOver(es, id) || (id in calls && !Involves(calls[id], user))
    case EndWrite(id, status, _) => status == Missed ==> Guessed(es, id) || CameBack(es, id)
    case _ => true
  }

  ghost predicate CallStory(es: seq<Event>, id: nat) {
    var calls := Run(EMPTY, es).calls;
    id in calls && calls[id].status == Missed ==> Guessed(es, id) || CameBack(es, id)
  }

  lemma {:induction false} StoriesLast(es: seq<Event>, e: Event, id: nat)
    ensures Guessed(es, id) ==> Guessed(es + [e], id)
    ensures WasOver(es, id) ==> WasOver(es + [e], id)
    ensures CameBack(es, id) ==> CameBack(es + [e], id)
  {
    var fs := es + [e];
    if Guessed(es, id) {
      var i: nat :| i < |es| && EarlyAt(es, i, id);
      assert fs[..i] == es[..i];
      assert EarlyAt(fs, i, id);
    }
    if WasOver(es, id) {
      var i: nat :| i <= |es| && OverAt(es, i, id);
      assert fs[..i] == es[..i];
      assert OverAt(fs, i, id);
    }
    if CameBack(es, id) {
      var i: nat, j: nat :| i < j <= |es| && BackAt(es, i, j, id);
      assert fs[..i] == es[..i] && fs[..j] == es[..j];
      assert BackAt(fs, i, j, id);
    }
  }

  lemma {:induction false} PartiesKeptByStep(s: State, e: Event, id: nat)
    requires id in s.calls
    ensures id in Step(s, e).calls
    ensures Step(s, e).calls[id].caller == s.calls[id].caller && Step(s, e).calls[id].receiver == s.calls[id].receiver
  {
  }

  lemma {:induction false} TaskStoryLasts(es: seq<Event>, e: Event, t: Task)
    requires TaskStory(es, t)
    ensures TaskStory(es + [e], t)
  {
    RunSnoc(EMPTY, es, e);
    if t.EndRead? || t.EndWrite? {
      StoriesLast(es, e, t.id);
      if t.id in Run(EMPTY, es).calls {
        PartiesKeptByStep(Run(EMPTY, es), e, t.id);
      }
    }
  }

  lemma {:induction false} OverNow(es: seq<Event>, id: nat)
    requires id in Run(EMPTY, es).calls && !IsActive(Run(EMPTY, es).calls[id].status)
    ensures WasOver(es, id)
  {
    assert es[..|es|] == es;
    assert OverAt(es, |es|, id);
  }

  lemma {:induction false} BackNow(es: seq<Event>, id: nat)
    requires WasOver(es, id) && id in Run(EMPTY, es).calls && IsActive(Run(EMPTY, es).calls[id].status)
    ensures CameBack(es, id)
  {
    assert es[..|es|] == es;
    var i: nat :| i <= |es| && OverAt(es, i, id);
    assert ActiveAt(es, |es|, id);
    assert BackAt(es, i, |es|, id);
  }

  /** What an ending task's next database call makes of its story. */
  lemma {:induction false} NextStory(es: seq<Event>, t: Task, newId: nat, now: Time)
    requires TaskStory(es, t)
    ensures TaskStory(es, Next(Run(EMPTY, es).calls, t, newId, now).1)
  {
    var calls := Run(EMPTY, es).calls;
    if t.EndRead? && t.id in calls {
      if !IsActive(calls[t.id].status) {
        OverNow(es, t.id);
      } else if WasOver(es, t.id) {
        BackNow(es, t.id);
      }
    }
  }

  /** A call turns `Missed` only by the write of a fallback. */
  lemma {:induction false} MissedSource(calls: Table, t: Task, newId: nat, now: Time, id: nat)
    requires var after := Next(calls, t, newId, now).0; id in after && after[id].status == Missed
    ensures (id in calls && calls[id].status == Missed) || (t.EndWrite? && t.id == id && t.status == Missed)
  {
  }

  ghost predicate StoriesOk(es: seq<Event>) {
    && (forall p :: p in Run(EMPTY, es).tasks ==> TaskStory(es, Run(EMPTY, es).tasks[p]))
    && (forall id :: CallStory(es, id))
  }

  lemma {:induction false} NewHangup(es: seq<Event>, e: Event)
    requires e.Hangup?
    ensures TaskStory(es + [e], EndRead(e.id, e.user, Ended, true))
  {
    RunSnoc(EMPTY, es, e);
    if e.id !in Run(EMPTY, es).calls {
      assert (es + [e])[..|es|] == es;
      assert EarlyAt(es + [e], |es|, e.id);
    }
  }

  lemma {:induction false} TaskStoryStep(es: seq<Event>, e: Event, p: nat)
    requires StoriesOk(es) && p in Run(EMPTY, es + [e]).tasks
    ensures TaskStory(es + [e], Run(EMPTY, es + [e]).tasks[p])
  {
    var s := Run(EMPTY, es);
    RunSnoc(EMPTY, es, e);
    var t := Step(s, e).tasks[p];
    if p in s.tasks && t == s.tasks[p] {
      TaskStoryLasts(es, e, t);
    } else if e.Advance? {
      NextStory(es, s.tasks[p], e.newId, e.now);
      TaskStoryLasts(es, e, t);
    } else if e.Hangup? {
      NewHangup(es, e);
    }
  }

  lemma {:induction false} CallStoryStep(es: seq<Event>, e: Event, id: nat)
    requires StoriesOk(es)
    ensures CallStory(es + [e], id)
  {
    var s := Run(EMPTY, es);
    RunSnoc(EMPTY, es, e);
    StoriesLast(es, e, id);
    assert CallStory(es, id);
    if e.Advance? && e.task in s.tasks && id in Step(s, e).calls && Step(s, e).calls[id].status == Missed {
      MissedSource(s.calls, s.tasks[e.task], e.newId, e.now, id);
      assert TaskStory(es, s.tasks[e.task]);
    }
  }

  lemma {:induction false} StoriesHold(es: seq<Event>)
    ensures StoriesOk(es)
  {
    if es != [] {
      var before, e := es[..|es| - 1], es[|es| - 1];
      assert before + [e] == es;
      StoriesHold(before);
      forall p | p in Run(EMPTY, es).tasks ensures TaskStory(es, Run(EMPTY, es).tasks[p]) {
        TaskStoryStep(before, e, p);
      }
      forall id ensures CallStory(es, id) {
        CallStoryStep(before, e, id);
      }
    }
  }

  /** Over all runs a call is `Missed` only if it was over and came back, or a hangup guessed its id. */
  lemma {:induction false} MissedOnlyAfterRevival(es: seq<Event>, id: nat)
    requires id in Run(EMPTY, es).calls && Run(EMPTY, es).calls[id].status == Missed
    ensures CameBack(es, id) || Guessed(es, id)
  {
    StoriesHold(es);
    assert CallStory(es, id);
  }

  // ---- Who answers -----------------------------------------------------------------------------------

  /** Some event of the run asks to accept the call for this user. */
  ghost predicate AcceptedBy(es: seq<Event>, id: nat, user: Uuid) {
    exists p :: Accept(p, id, user) in es
  }

  /** The receiver of a stored call has asked to accept it. */
  ghost predicate Taken(es: seq<Event>, id: nat) {
    id in Run(EMPTY, es).calls && AcceptedBy(es, id, Run(EMPTY, es).calls[id].receiver)
  }

  ghost predicate AcceptStory(es: seq<Event>, t: Task) {
    match t
    case AcceptRead(id, user) => AcceptedBy(es, id, user)
    case AcceptWrite(id) => Taken(es, id)
    case EndWrite(id, _, startedAt) => startedAt.Some? ==> Taken(es, id)
    case _ => true
  }

  ghost predicate StartStory(es: seq<Event>, id: nat) {
    id in Run(EMPTY, es).calls && Run(EMPTY, es).calls[id].startedAt.Some? ==> Taken(es, id)
  }

  lemma {:induction false} TakenLasts(es: seq<Event>, e: Event, id: nat, user: Uuid)
    ensures AcceptedBy(es, id, user) ==> AcceptedBy(es + [e], id, user)
    ensures Taken(es, id) ==> Taken(es + [e], id)
  {
    RunSnoc(EMPTY, es, e);
    if Taken(es, id) {
      PartiesKeptByStep(Run(EMPTY, es), e, id);
      var p :| Accept(p, id, Run(EMPTY, es).calls[id].receiver) in es;
      assert Accept(p, id, Run(EMPTY, es).calls[id].receiver) in es + [e];
    }
    if AcceptedBy(es, id, user) {
      var p :| Accept(p, id, user) in es;
      assert Accept(p, id, user) in es + [e];
    }
  }

  lemma {:induction false} AcceptStoryLasts(es: seq<Event>, e: Event, t: Task)
    requires AcceptStory(es, t)
    ensures AcceptStory(es + [e], t)
  {
    match t
    case AcceptRead(id, user) => TakenLasts(es, e, id, user);
    case AcceptWrite(id) => TakenLasts(es, e, id, 0);
    case EndWrite(id, _, _) => TakenLasts(es, e, id, 0);
    case _ =>
  }

  lemma {:induction false} NextAcceptStory(es: seq<Event>, t: Task, newId: nat, now: Time)
    requires AcceptStory(es, t) && (t.EndRead? ==> StartStory(es, t.id))
    ensures AcceptStory(es, Next(Run(EMPTY, es).calls, t, newId, now).1)
  {
  }

  ghost predicate AcceptStoriesOk(es: seq<Event>) {
    && (forall p :: p in Run(EMPTY, es).tasks ==> AcceptStory(es, Run(EMPTY, es).tasks[p]))
    && (forall id :: StartStory(es, id))
  }

  lemma {:induction false} AcceptStoryStep(es: seq<Event>, e: Event, p: nat)
    requires AcceptStoriesOk(es) && p in Run(EMPTY, es + [e]).tasks
    ensures AcceptStory(es + [e], Run(EMPTY, es + [e]).tasks[p])
  {
    var s := Run(EMPTY, es);
    RunSnoc(EMPTY, es, e);
    var t := Step(s, e).tasks[p];
    if p in s.tasks && t == s.tasks[p] {
      AcceptStoryLasts(es, e, t);
    } else if e.Advance? {
      assert s.tasks[p].EndRead? ==> StartStory(es, s.tasks[p].id);
      NextAcceptStory(es, s.tasks[p], e.newId, e.now);
      AcceptStoryLasts(es, e, t);
    } else if e.Accept? {
      assert e in es + [e];
    }
  }

  /** A call gets a start time only from a task whose story names its receiver. */
  lemma {:induction false} StartSource(calls: Table, t: Task, newId: nat, now: Time, id: nat)
    requires var after := Next(calls, t, newId, now).0; id in after && after[id].startedAt.Some?
    ensures || (id in calls && calls[id].startedAt.Some?)
            || t == AcceptWrite(id)
            || (t.EndWrite? && t.id == id && t.startedAt.Some?)
  {
  }

  lemma {:induction false} StartStoryStep(es: seq<Event>, e: Event, id: nat)
    requires AcceptStoriesOk(es)
    ensures StartStory(es + [e], id)
  {
    var s := Run(EMPTY, es);
    RunSnoc(EMPTY, es, e);
    TakenLasts(es, e, id, 0);
    assert StartStory(es, id);
    if e.Advance? && e.task in s.tasks && id in Step(s, e).calls && Step(s, e).calls[id].startedAt.Some? {
      StartSource(s.calls, s.tasks[e.task], e.newId, e.now, id);
      assert AcceptStory(es, s.tasks[e.task]);
    }
  }

  lemma {:induction false} AcceptStoriesHold(es: seq<Event>)
    ensures AcceptStoriesOk(es)
  {
    if es != [] {
      var before, e := es[..|es| - 1], es[|es| - 1];
      assert before + [e] == es;
      AcceptStoriesHold(before);
      forall p | p in Run(EMPTY, es).tasks ensures AcceptStory(es, Run(EMPTY, es).tasks[p]) {
        AcceptStoryStep(before, e, p);
      }
      forall id ensures StartStory(es, id) {
        StartStoryStep(before, e, id);
      }
    }
  }

  /** Over all interleaved runs, a call that is or was answered was accepted by its receiver. */
  lemma {:induction false} OnlyReceiverAnswers(es: seq<Event>, id: nat)
    requires id in Run(EMPTY, es).calls
    requires Run(EMPTY, es).calls[id].status == Answered || Run(EMPTY, es).calls[id].startedAt.Some?
    ensures exists p :: Accept(p, id, Run(EMPTY, es).calls[id].receiver) in es
  {
    RecordsStayConsistent(es);
    AcceptStoriesHold(es);
    assert StartStory(es, id);
  }

  /** The caller's hangup, reading the call between the receiver's rejection and the ringing update. */
  function LateHangup(now: Time): seq<Event> {
    [Hangup(2, 10, 1), Advance(2, 0, now), Advance(0, 0, now)]
  }

  function RevivedCall(): State {
    State(map[10 := Call(1, 2, Audio, Ringing, None, None)], map[0 := Done, 1 := Done, 2 := EndRead(10, 1, Missed, false)])
  }

  lemma {:induction false} LateHangupWaits(now: Time)
    ensures Run(RejectedCall(now), LateHangup(now)) == RevivedCall()
  {
    var s := RejectedCall(now);
    RunThree(s, Hangup(2, 10, 1), Advance(2, 0, now), Advance(0, 0, now));
    var s2 := Step(Step(s, Hangup(2, 10, 1)), Advance(2, 0, now));
    assert s2.tasks == map[0 := Ring(10), 1 := Done, 2 := EndRead(10, 1, Missed, false)];
    assert Step(s2, Advance(0, 0, now)).tasks == RevivedCall().tasks;
  }

  lemma {:induction false} RunTwo(s: State, a: Event, b: Event)
    ensures Run(s, [a, b]) == Step(Step(s, a), b)
  {
    RunSnoc(s, [], a);
    RunSnoc(s, [a], b);
    assert [] + [a] == [a] && [a] + [b] == [a, b];
  }

  lemma {:induction false} FallbackWrites(now: Time)
    ensures Run(RevivedCall(), [Advance(2, 0, now), Advance(2, 0, now)]).calls == map[10 := Call(1, 2, Audio, Missed, None, Some(now))]
  {
    var s := RevivedCall();
    RunTwo(s, Advance(2, 0, now), Advance(2, 0, now));
    var s1 := Step(s, Advance(2, 0, now));
    assert s1.calls == s.calls && s1.tasks[2] == EndWrite(10, Missed, None);
    assert Step(s1, Advance(2, 0, now)).calls == s.calls[10 := Updated(s.calls[10], Missed, None, Some(now))];
  }

  /** A run that ends in `Missed`: rejected, read as over, revived by the ringing update, and ended by the fallback. */
  lemma {:induction false} MissedIsReachable(now: Time)
    ensures Run(EMPTY, RejectedRun(now) + LateHangup(now) + [Advance(2, 0, now), Advance(2, 0, now)]).calls ==
            map[10 := Call(1, 2, Audio, Missed, None, Some(now))]
  {
    RejectedIsReachable(now);
    RunAppend(EMPTY, RejectedRun(now), LateHangup(now));
    LateHangupWaits(now);
    RunAppend(EMPTY, RejectedRun(now) + LateHangup(now), [Advance(2, 0, now), Advance(2, 0, now)]);
    FallbackWrites(now);
  }
}
