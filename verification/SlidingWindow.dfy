/**
 The sliding-window rate limiter: a Redis sorted set of admissions that is pruned on
 every call and expires as a whole, against the pure history rule it stands for.
 */
module SlidingWindow {
  import opened Prelude

  /** The sorted-set member `now .. '-' .. math.random()`. */
  datatype Member = Member(ts: nat, random: int)

  /** The sorted set with its scores, and the time at which Redis drops the key. */
  datatype Store = Store(entries: map<Member, nat>, expireAt: nat)

  datatype RateLimitResult = RateLimitResult(allowed: bool, currentCount: nat, limit: nat, resetTimestamp: nat)

  function Live(s: Store, now: nat): map<Member, nat> {
    if now < s.expireAt then s.entries else map[]
  }

  /** ZREMRANGEBYSCORE key 0 bound. */
  function Prune(z: map<Member, nat>, bound: int): map<Member, nat> {
    map m | m in z && !(0 <= z[m] <= bound) :: z[m]
  }

  /** The script, in milliseconds; `seconds` is the window length. */
  function Check(s: Store, request: Member, limit: nat, seconds: nat): (Store, RateLimitResult) {
    var now := request.ts;
    var z := Prune(Live(s, now), now - seconds * 1000);
    var reset := now / 1000 + seconds;
    if |z| < limit
    then (Store(z[request := now], now + (seconds + 1) * 1000), RateLimitResult(true, |z| + 1, limit, reset))
    else (Store(z, s.expireAt), RateLimitResult(false, |z|, limit, reset))
  }

  /** The limiter's store together with every admission it ever made. */
  datatype World = World(store: Store, admitted: seq<Member>)

  const START := World(Store(map[], 0), [])

  function Serve(w: World, request: Member, limit: nat, seconds: nat): World {
    var (store, r) := Check(w.store, request, limit, seconds);
    World(store, if r.allowed then w.admitted + [request] else w.admitted)
  }

  function Run(requests: seq<Member>, limit: nat, seconds: nat): World {
    if requests == [] then START
    else Serve(Run(requests[..|requests| - 1], limit, seconds), requests[|requests| - 1], limit, seconds)
  }

  // ---- The history rule -------------------------------------------------------------

  /** Admissions in the interval (after, upTo]. */
  function Count(a: seq<Member>, after: int, upTo: int): nat {
    if a == [] then 0
    else Count(a[..|a| - 1], after, upTo) + if after < a[|a| - 1].ts <= upTo then 1 else 0
  }

  predicate RuleAdmits(a: seq<Member>, now: nat, limit: nat, seconds: nat) {
    Count(a, now - seconds * 1000, now) < limit
  }

  /** The admissions the rule makes: fewer than `limit` in the window that ends now. */
  function RuleRun(requests: seq<Member>, limit: nat, seconds: nat): seq<Member> {
    if requests == [] then [] else
      var n := |requests| - 1;
      var a := RuleRun(requests[..n], limit, seconds);
      if RuleAdmits(a, requests[n].ts, limit, seconds) then a + [requests[n]] else a
  }

  /** The clock never runs backwards. */
  ghost predicate InOrder(a: seq<Member>) {
    forall i, j :: 0 <= i < j < |a| ==> a[i].ts <= a[j].ts
  }

  /** The members admitted in (after, upTo], each once. */
  function Window(a: seq<Member>, after: int, upTo: int): set<Member> {
    set m | m in a && after < m.ts <= upTo
  }

  /** No two admissions in (after, upTo] formed the same member. */
  ghost predicate Differ(a: seq<Member>, after: int, upTo: int) {
    forall i, j :: 0 <= i < j < |a| && after < a[i].ts <= upTo ==> a[i] != a[j]
  }

  lemma {:induction false} WindowSnoc(a: seq<Member>, m: Member, after: int, upTo: int)
    ensures Window(a + [m], after, upTo) == Window(a, after, upTo) + if after < m.ts <= upTo then {m} else {}
  {
    assert forall x :: x in a + [m] <==> x in a || x == m;
  }

  lemma {:induction false} CountSnoc(a: seq<Member>, m: Member, after: int, upTo: int)
    ensures Count(a + [m], after, upTo) == Count(a, after, upTo) + if after < m.ts <= upTo then 1 else 0
  {
    assert (a + [m])[..|a|] == a;
  }

  lemma {:induction false} DifferSnoc(a: seq<Member>, m: Member, after: int, upTo: int)
    ensures Differ(a + [m], after, upTo) <==> Differ(a, after, upTo) && m !in Window(a, after, upTo)
  {
    var x := a + [m];
    if Differ(x, after, upTo) {
      forall i, j | 0 <= i < j < |a| && after < a[i].ts <= upTo ensures a[i] != a[j] {
        assert x[i] != x[j];
      }
      forall i | 0 <= i < |a| && after < a[i].ts <= upTo ensures a[i] != m {
        assert x[i] != x[|a|];
      }
    }
  }

  /** The members of an interval are as many as its admissions exactly when no two admissions agree. */
  lemma {:induction false} WindowIsCountIff(a: seq<Member>, after: int, upTo: int)
    ensures |Window(a, after, upTo)| <= Count(a, after, upTo)
    ensures |Window(a, after, upTo)| == Count(a, after, upTo) <==> Differ(a, after, upTo)
  {
    if a == [] {
      assert Window(a, after, upTo) == {};
    } else {
      var front, last := a[..|a| - 1], a[|a| - 1];
      assert a == front + [last];
      WindowIsCountIff(front, after, upTo);
      WindowSnoc(front, last, after, upTo);
      CountSnoc(front, last, after, upTo);
      DifferSnoc(front, last, after, upTo);
      if last in Window(front, after, upTo) {
        assert Window(a, after, upTo) == Window(front, after, upTo);
      }
    }
  }

  /** Every admission still inside the window is in the sorted set, which outlives the window. */
  ghost predicate Tracks(w: World, clock: nat, seconds: nat) {
    && (forall m :: m in w.store.entries ==> m in w.admitted && w.store.entries[m] == m.ts)
    && (forall m :: m in w.admitted ==> Kept(w.store, m, clock, seconds))
  }

  ghost predicate Kept(s: Store, m: Member, clock: nat, seconds: nat) {
    && m.ts <= clock
    && m.ts + (seconds + 1) * 1000 <= s.expireAt
    && (m.ts > clock - seconds * 1000 ==> m in s.entries)
  }

  /** After pruning, the sorted set holds the members admitted in the window. */
  lemma {:induction false} PrunedIsWindow(w: World, clock: nat, now: nat, seconds: nat)
    requires Tracks(w, clock, seconds) && clock <= now
    ensures Prune(Live(w.store, now), now - seconds * 1000).Keys == Window(w.admitted, now - seconds * 1000, now)
  {
    var z := Prune(Live(w.store, now), now - seconds * 1000);
    forall m ensures m in z <==> m in w.admitted && now - seconds * 1000 < m.ts <= now {
      if m in w.admitted {
        assert Kept(w.store, m, clock, seconds);
      }
    }
  }

  lemma {:induction false} PrunedCount(w: World, clock: nat, now: nat, seconds: nat)
    requires Tracks(w, clock, seconds) && clock <= now
    ensures |Prune(Live(w.store, now), now - seconds * 1000)| == |Window(w.admitted, now - seconds * 1000, now)|
  {
    PrunedIsWindow(w, clock, now, seconds);
    var z := Prune(Live(w.store, now), now - seconds * 1000);
    assert |z| == |z.Keys|;
  }

  lemma {:induction false} AdmitTracks(w: World, clock: nat, request: Member, limit: nat, seconds: nat)
    requires Tracks(w, clock, seconds) && clock <= request.ts
    requires Check(w.store, request, limit, seconds).1.allowed
    ensures Tracks(Serve(w, request, limit, seconds), request.ts, seconds)
  {
    PrunedIsWindow(w, clock, request.ts, seconds);
    var v := Serve(w, request, limit, seconds);
    var z := Prune(Live(w.store, request.ts), request.ts - seconds * 1000);
    assert v.store.entries == z[request := request.ts];
    forall m | m in v.admitted ensures Kept(v.store, m, request.ts, seconds) {
      if m != request {
        assert m in w.admitted && Kept(w.store, m, clock, seconds);
        assert m.ts > request.ts - seconds * 1000 ==> m in z.Keys;
      }
    }
  }

  lemma {:induction false} RefuseTracks(w: World, clock: nat, request: Member, limit: nat, seconds: nat)
    requires Tracks(w, clock, seconds) && clock <= request.ts
    requires !Check(w.store, request, limit, seconds).1.allowed
    ensures Tracks(Serve(w, request, limit, seconds), request.ts, seconds)
  {
    PrunedIsWindow(w, clock, request.ts, seconds);
    var v := Serve(w, request, limit, seconds);
    var z := Prune(Live(w.store, request.ts), request.ts - seconds * 1000);
    assert v.store.entries == z;
    forall m | m in v.admitted ensures Kept(v.store, m, request.ts, seconds) {
      assert Kept(w.store, m, clock, seconds);
      assert m.ts > request.ts - seconds * 1000 ==> m in z.Keys;
    }
  }

  lemma {:induction false} ServeTracks(w: World, clock: nat, request: Member, limit: nat, seconds: nat)
    requires Tracks(w, clock, seconds) && clock <= request.ts
    ensures Tracks(Serve(w, request, limit, seconds), request.ts, seconds)
  {
    if Check(w.store, request, limit, seconds).1.allowed {
      AdmitTracks(w, clock, request, limit, seconds);
    } else {
      RefuseTracks(w, clock, request, limit, seconds);
    }
  }

  /** The answer of the script, in terms of the members admitted in the window. */
  lemma {:induction false} CheckAnswer(s: Store, request: Member, limit: nat, seconds: nat, size: nat)
    requires size == |Prune(Live(s, request.ts), request.ts - seconds * 1000)|
    ensures var r := Check(s, request, limit, seconds).1;
            (r.allowed <==> size < limit) && r.currentCount == size + (if r.allowed then 1 else 0)
  {
  }

  function LastTime(requests: seq<Member>): nat {
    if requests == [] then 0 else requests[|requests| - 1].ts
  }

  lemma {:induction false} RunTracks(requests: seq<Member>, limit: nat, seconds: nat)
    requires InOrder(requests)
    ensures Tracks(Run(requests, limit, seconds), LastTime(requests), seconds)
  {
    if requests != [] {
      var n := |requests| - 1;
      RunTracks(requests[..n], limit, seconds);
      ServeTracks(Run(requests[..n], limit, seconds), LastTime(requests[..n]), requests[n], limit, seconds);
    }
  }

  /** `next` comes no earlier than the calls before it. */
  ghost predicate Follows(requests: seq<Member>, next: Member) {
    InOrder(requests) && LastTime(requests) <= next.ts
  }

  lemma {:induction false} TrackedAnswer(w: World, clock: nat, next: Member, limit: nat, seconds: nat)
    requires Tracks(w, clock, seconds) && clock <= next.ts
    ensures var size := |Window(w.admitted, next.ts - seconds * 1000, next.ts)|;
            var r := Check(w.store, next, limit, seconds).1;
            (r.allowed <==> size < limit) && r.currentCount == size + (if r.allowed then 1 else 0)
  {
    PrunedCount(w, clock, next.ts, seconds);
    CheckAnswer(w.store, next, limit, seconds, |Window(w.admitted, next.ts - seconds * 1000, next.ts)|);
  }

  /**
   Over every run the sorted set with pruning and key expiry admits a call exactly when
   fewer than `limit` different members were admitted in the window, and reports their number.
   */
  lemma {:induction false} RefinesMemberRule(requests: seq<Member>, next: Member, limit: nat, seconds: nat)
    requires Follows(requests, next)
    ensures var w := Run(requests, limit, seconds);
            var size := |Window(w.admitted, next.ts - seconds * 1000, next.ts)|;
            var r := Check(w.store, next, limit, seconds).1;
            (r.allowed <==> size < limit) && r.currentCount == size + (if r.allowed then 1 else 0)
  {
    RunTracks(requests, limit, seconds);
    TrackedAnswer(Run(requests, limit, seconds), LastTime(requests), next, limit, seconds);
  }

  lemma {:induction false} AnswerAgainstHistory(a: seq<Member>, now: nat, limit: nat, seconds: nat, r: RateLimitResult)
    requires var size := |Window(a, now - seconds * 1000, now)|;
             (r.allowed <==> size < limit) && r.currentCount == size + (if r.allowed then 1 else 0)
    ensures var after := now - seconds * 1000;
            && (r.currentCount == Count(a, after, now) + (if r.allowed then 1 else 0) <==> Differ(a, after, now))
            && (Differ(a, after, now) ==> (r.allowed <==> RuleAdmits(a, now, limit, seconds)))
            && (RuleAdmits(a, now, limit, seconds) ==> r.allowed)
  {
    WindowIsCountIff(a, now - seconds * 1000, now);
  }

  /**
   The reported number is the number of admissions in the window, the current one
   included, exactly when no two of the earlier ones formed the same member; and then
   the call is admitted exactly as the history rule says.
   */
  lemma {:induction false} RefinesHistoryRule(requests: seq<Member>, next: Member, limit: nat, seconds: nat)
    requires Follows(requests, next)
    ensures var w := Run(requests, limit, seconds);
            var after := next.ts - seconds * 1000;
            var r := Check(w.store, next, limit, seconds).1;
            && (r.currentCount == Count(w.admitted, after, next.ts) + (if r.allowed then 1 else 0)
                <==> Differ(w.admitted, after, next.ts))
            && (Differ(w.admitted, after, next.ts) ==> (r.allowed <==> RuleAdmits(w.admitted, next.ts, limit, seconds)))
            && (RuleAdmits(w.admitted, next.ts, limit, seconds) ==> r.allowed)
  {
    var w := Run(requests, limit, seconds);
    RefinesMemberRule(requests, next, limit, seconds);
    AnswerAgainstHistory(w.admitted, next.ts, limit, seconds, Check(w.store, next, limit, seconds).1);
  }

  /** No two admissions of the run formed the same member. */
  ghost predicate Distinct(a: seq<Member>) {
    forall i, j :: 0 <= i < j < |a| ==> a[i] != a[j]
  }

  lemma DistinctPrefix(a: seq<Member>, m: Member)
    requires Distinct(a + [m])
    ensures Distinct(a)
  {
    forall i, j | 0 <= i < j < |a| ensures a[i] != a[j] {
      assert (a + [m])[i] != (a + [m])[j];
    }
  }

  /** If the admitted members differ, the run admits just what the history rule admits. */
  lemma {:induction false} RunIsRuleRun(requests: seq<Member>, limit: nat, seconds: nat)
    requires InOrder(requests) && Distinct(Run(requests, limit, seconds).admitted)
    ensures Run(requests, limit, seconds).admitted == RuleRun(requests, limit, seconds)
  {
    if requests != [] {
      var n := |requests| - 1;
      var a := Run(requests[..n], limit, seconds).admitted;
      if Run(requests, limit, seconds).admitted != a {
        DistinctPrefix(a, requests[n]);
      }
      RunIsRuleRun(requests[..n], limit, seconds);
      RefinesHistoryRule(requests[..n], requests[n], limit, seconds);
    }
  }

  // ---- The bound ------------------------------------------------------------------------

  lemma {:induction false} RunWithin(requests: seq<Member>, limit: nat, seconds: nat, m: Member)
    requires m in Run(requests, limit, seconds).admitted
    ensures m in requests
  {
    var n := |requests| - 1;
    if m in Run(requests[..n], limit, seconds).admitted {
      RunWithin(requests[..n], limit, seconds, m);
    }
  }

  lemma {:induction false} AdmittedBefore(requests: seq<Member>, limit: nat, seconds: nat, m: Member)
    requires InOrder(requests) && m in Run(requests, limit, seconds).admitted
    ensures m.ts <= LastTime(requests)
  {
    RunWithin(requests, limit, seconds, m);
    var i :| 0 <= i < |requests| && requests[i] == m;
    assert i < |requests| - 1 ==> requests[i].ts <= requests[|requests| - 1].ts;
  }

  lemma {:induction false} AllAdmittedBefore(requests: seq<Member>, limit: nat, seconds: nat, now: nat)
    requires InOrder(requests) && LastTime(requests) <= now
    ensures forall x :: x in Run(requests, limit, seconds).admitted ==> x.ts <= now
  {
    forall x | x in Run(requests, limit, seconds).admitted ensures x.ts <= now {
      AdmittedBefore(requests, limit, seconds, x);
    }
  }

  lemma {:induction false} AdmissionFits(a: seq<Member>, m: Member, limit: nat, end: int, span: nat)
    requires |Window(a, end - span, end)| <= limit && |Window(a, m.ts - span, m.ts)| < limit
    requires forall x :: x in a ==> x.ts <= m.ts
    ensures |Window(a + [m], end - span, end)| <= limit
  {
    WindowSnoc(a, m, end - span, end);
    if end - span < m.ts <= end {
      var small, large := Window(a, end - span, end), Window(a, m.ts - span, m.ts);
      assert small <= large;
      SubsetSize(small, large);
      assert |small + {m}| <= |small| + 1;
    }
  }

  /** An admitted call finds fewer than `limit` members in its window. */
  lemma {:induction false} AllowedHasRoom(front: seq<Member>, m: Member, limit: nat, seconds: nat, span: nat, w: World)
    requires Follows(front, m) && span == seconds * 1000 && w == Run(front, limit, seconds)
    requires Check(w.store, m, limit, seconds).1.allowed
    ensures |Window(w.admitted, m.ts - span, m.ts)| < limit
  {
    RefinesMemberRule(front, m, limit, seconds);
  }

  lemma {:induction false} AllowedFits(front: seq<Member>, m: Member, limit: nat, seconds: nat, end: int, span: nat, w: World)
    requires Follows(front, m) && span == seconds * 1000 && w == Run(front, limit, seconds)
    requires Check(w.store, m, limit, seconds).1.allowed
    requires |Window(w.admitted, end - span, end)| <= limit
    ensures |Window(w.admitted + [m], end - span, end)| <= limit
  {
    AllowedHasRoom(front, m, limit, seconds, span, w);
    AllAdmittedBefore(front, limit, seconds, m.ts);
    AdmissionFits(w.admitted, m, limit, end, span);
  }

  lemma {:induction false} ServeFits(front: seq<Member>, m: Member, limit: nat, seconds: nat, end: int, span: nat, w: World)
    requires Follows(front, m) && span == seconds * 1000 && w == Run(front, limit, seconds)
    requires |Window(w.admitted, end - span, end)| <= limit
    ensures |Window(Serve(w, m, limit, seconds).admitted, end - span, end)| <= limit
  {
    if Check(w.store, m, limit, seconds).1.allowed {
      AllowedFits(front, m, limit, seconds, end, span, w);
    }
  }

  lemma {:induction false} SpanNeverExceeds(requests: seq<Member>, limit: nat, seconds: nat, end: int, span: nat)
    requires InOrder(requests) && span == seconds * 1000
    ensures |Window(Run(requests, limit, seconds).admitted, end - span, end)| <= limit
  {
    if requests == [] {
      assert Window([], end - span, end) == {};
    } else {
      var n := |requests| - 1;
      SpanNeverExceeds(requests[..n], limit, seconds, end, span);
      ServeFits(requests[..n], requests[n], limit, seconds, end, span, Run(requests[..n], limit, seconds));
    }
  }

  /** Over every run no interval (end - window, end] holds more than `limit` different members. */
  lemma {:induction false} MembersNeverExceed(requests: seq<Member>, limit: nat, seconds: nat, end: int)
    requires InOrder(requests)
    ensures |Window(Run(requests, limit, seconds).admitted, end - seconds * 1000, end)| <= limit
  {
    SpanNeverExceeds(requests, limit, seconds, end, seconds * 1000);
  }

  /**
   The limiter's bound: an interval of one window, wherever it lies, holds at most
   `limit` admissions if the admissions in that interval formed different members.
   */
  lemma {:induction false} LimiterNeverExceeds(requests: seq<Member>, limit: nat, seconds: nat, end: int)
    requires InOrder(requests)
    ensures var a := Run(requests, limit, seconds).admitted;
            Differ(a, end - seconds * 1000, end) ==> Count(a, end - seconds * 1000, end) <= limit
  {
    MembersNeverExceed(requests, limit, seconds, end);
    WindowIsCountIff(Run(requests, limit, seconds).admitted, end - seconds * 1000, end);
  }

  lemma {:induction false} CountMonotone(a: seq<Member>, after: int, upTo: int, after': int, upTo': int)
    requires after' <= after
    requires forall m :: m in a ==> m.ts <= upTo'
    ensures Count(a, after, upTo) <= Count(a, after', upTo')
  {
    if a != [] {
      assert a[|a| - 1] in a;
      CountMonotone(a[..|a| - 1], after, upTo, after', upTo');
    }
  }

  lemma {:induction false} RuleRunWithin(requests: seq<Member>, limit: nat, seconds: nat)
    ensures forall m :: m in RuleRun(requests, limit, seconds) ==> m in requests
  {
    if requests != [] {
      RuleRunWithin(requests[..|requests| - 1], limit, seconds);
    }
  }

  lemma {:induction false} RuleAdmissionFits(a: seq<Member>, m: Member, limit: nat, seconds: nat, end: int)
    requires Count(a, end - seconds * 1000, end) <= limit && RuleAdmits(a, m.ts, limit, seconds)
    requires forall x :: x in a ==> x.ts <= m.ts
    ensures Count(a + [m], end - seconds * 1000, end) <= limit
  {
    CountSnoc(a, m, end - seconds * 1000, end);
    if end - seconds * 1000 < m.ts <= end {
      CountMonotone(a, end - seconds * 1000, end, m.ts - seconds * 1000, m.ts);
    }
  }

  /** The history rule alone keeps the bound on every interval (end - window, end]. */
  lemma {:induction false} RuleNeverExceeds(requests: seq<Member>, limit: nat, seconds: nat, end: int)
    requires InOrder(requests)
    ensures Count(RuleRun(requests, limit, seconds), end - seconds * 1000, end) <= limit
  {
    if requests != [] {
      var n := |requests| - 1;
      var front := requests[..n];
      RuleNeverExceeds(front, limit, seconds, end);
      var a := RuleRun(front, limit, seconds);
      var now := requests[n].ts;
      RuleRunWithin(front, limit, seconds);
      if RuleAdmits(a, now, limit, seconds) {
        assert forall m :: m in a ==> m.ts <= now;
        RuleAdmissionFits(a, requests[n], limit, seconds, end);
      }
    }
  }

  // ---- The reset time -------------------------------------------------------------------

  /** The reported second is the last full one before the window of this call has passed, and the limit is reported as given. */
  lemma {:induction false} ResetMeaning(s: Store, request: Member, limit: nat, seconds: nat)
    ensures var r := Check(s, request, limit, seconds).1;
            && r.limit == limit
            && r.resetTimestamp * 1000 <= request.ts + seconds * 1000 < (r.resetTimestamp + 1) * 1000
  {
  }

  /** The key goes exactly one second after the window of its last admission; refusals do not prolong it. */
  lemma {:induction false} KeyExpiry(s: Store, request: Member, limit: nat, seconds: nat, now: nat)
    ensures var (t, r) := Check(s, request, limit, seconds);
            && (r.allowed ==> (Live(t, now) == map[] <==> now >= request.ts + seconds * 1000 + 1000))
            && (!r.allowed ==> t.expireAt == s.expireAt)
  {
    if Check(s, request, limit, seconds).1.allowed {
      assert request in Check(s, request, limit, seconds).0.entries;
    }
  }

  /** Without further calls, every call after the reported second has passed finds the limiter empty. */
  lemma {:induction false} EmptyAfterReset(requests: seq<Member>, last: Member, next: Member, limit: nat, seconds: nat)
    requires Follows(requests, last) && limit > 0
    requires next.ts >= (Check(Run(requests, limit, seconds).store, last, limit, seconds).1.resetTimestamp + 1) * 1000
    ensures var r := Check(Run(requests + [last], limit, seconds).store, next, limit, seconds).1;
            r.allowed && r.currentCount == 1
  {
    var all := requests + [last];
    assert all[..|requests|] == requests;
    ResetMeaning(Run(requests, limit, seconds).store, last, limit, seconds);
    RefinesMemberRule(all, next, limit, seconds);
    var a := Run(all, limit, seconds).admitted;
    AllAdmittedBefore(all, limit, seconds, last.ts);
    assert Window(a, next.ts - seconds * 1000, next.ts) == {};
  }

  // ---- Collisions -----------------------------------------------------------------------

  /** Calls in the same millisecond that draw the same random number form one member. */
  ghost predicate AllSame(requests: seq<Member>, m: Member) {
    forall i :: 0 <= i < |requests| ==> requests[i] == m
  }

  lemma {:induction false} CollisionCount(requests: seq<Member>, m: Member, after: int)
    requires after < m.ts && AllSame(requests, m)
    ensures Count(requests, after, m.ts) == |requests|
  {
    if requests != [] {
      CollisionCount(requests[..|requests| - 1], m, after);
    }
  }

  lemma {:induction false} CollidingCheck(s: Store, m: Member, limit: nat, seconds: nat)
    requires limit >= 2 && (s == START.store || s.entries == map[m := m.ts])
    ensures var (t, r) := Check(s, m, limit, seconds);
            r.allowed && t.entries == map[m := m.ts]
  {
    var z := Prune(Live(s, m.ts), m.ts - seconds * 1000);
    assert z == map[] || z == map[m := m.ts];
  }

  /** The store before and after colliding calls. */
  ghost predicate Collided(s: Store, m: Member, calls: nat) {
    if calls == 0 then s == START.store else s.entries == map[m := m.ts]
  }

  lemma {:induction false} CollidingServe(w: World, m: Member, limit: nat, seconds: nat, calls: nat)
    requires limit >= 2 && Collided(w.store, m, calls)
    ensures var v := Serve(w, m, limit, seconds);
            v.admitted == w.admitted + [m] && Collided(v.store, m, calls + 1)
  {
    CollidingCheck(w.store, m, limit, seconds);
  }

  lemma {:induction false} CollisionRun(requests: seq<Member>, m: Member, limit: nat, seconds: nat)
    requires limit >= 2 && AllSame(requests, m)
    ensures Run(requests, limit, seconds).admitted == requests
    ensures Collided(Run(requests, limit, seconds).store, m, |requests|)
  {
    if requests != [] {
      var n := |requests| - 1;
      CollisionRun(requests[..n], m, limit, seconds);
      CollidingServe(Run(requests[..n], limit, seconds), m, limit, seconds, n);
      assert requests == requests[..n] + [m];
    }
  }

  /** At every limit from 2 on, colliding calls are all admitted, however many fall into one window. */
  lemma {:induction false} CollisionsEscapeTheLimit(requests: seq<Member>, m: Member, limit: nat, seconds: nat)
    requires limit >= 2 && seconds > 0 && AllSame(requests, m)
    ensures Run(requests, limit, seconds).admitted == requests
    ensures Count(requests, m.ts - seconds * 1000, m.ts) == |requests|
  {
    CollisionCount(requests, m, m.ts - seconds * 1000);
    CollisionRun(requests, m, limit, seconds);
  }

  /** The limiter for one key, as Redis holds it. */
  class RateLimiter {
    var entries: map<Member, nat>
    var expireAt: nat

    constructor ()
      ensures Store(entries, expireAt) == START.store
    {
      entries, expireAt := map[], 0;
    }

    method CheckRateLimit(request: Member, limit: nat, windowSeconds: nat) returns (r: RateLimitResult)
      modifies this
      ensures (Store(entries, expireAt), r) == Check(old(Store(entries, expireAt)), request, limit, windowSeconds)
    {
      var now := request.ts;
      entries := Prune(Live(Store(entries, expireAt), now), now - windowSeconds * 1000);
      var count := |entries|;
      if count < limit {
        entries := entries[request := now];
        expireAt := now + (windowSeconds + 1) * 1000;
        r := RateLimitResult(true, count + 1, limit, now / 1000 + windowSeconds);
      } else {
        r := RateLimitResult(false, count, limit, now / 1000 + windowSeconds);
      }
    }
  }
}
