/**
 The fixed-window rate limiter: a counter that every call increments, refused calls
 included, and that expires one window after its first increment.
 */
module FixedWindow {
  import opened Prelude

  /** The Redis counter; a count of 0 stands for an absent key. */
  datatype Counter = Counter(count: nat, expireAt: nat)

  /** INCR, then EXPIRE if the key is new. */
  function Hit(c: Counter, now: nat, window: nat): Counter {
    if c.count > 0 && now < c.expireAt then Counter(c.count + 1, c.expireAt)
    else Counter(1, now + window)
  }

  /** One call: when it came, which life of the counter it fell into, and its answer. */
  datatype Call = Call(time: nat, life: nat, allowed: bool)

  /** The counter, the start times of its lives, and all calls so far. */
  datatype World = World(counter: Counter, starts: seq<nat>, log: seq<Call>)

  const START := World(Counter(0, 0), [], [])

  function Serve(w: World, now: nat, limit: nat, window: nat): World {
    var c := Hit(w.counter, now, window);
    var starts := if c.count == 1 then w.starts + [now] else w.starts;
    World(c, starts, w.log + [Call(now, if starts == [] then 0 else |starts| - 1, c.count <= limit)])
  }

  function Run(times: seq<nat>, limit: nat, window: nat): World {
    if times == [] then START
    else Serve(Run(times[..|times| - 1], limit, window), times[|times| - 1], limit, window)
  }

  ghost predicate InOrder(times: seq<nat>) {
    forall i, j :: 0 <= i < j < |times| ==> times[i] <= times[j]
  }

  /** Admitted calls in the closed interval [from, to]. */
  function Admitted(log: seq<Call>, from: int, to: int): nat {
    if log == [] then 0
    else Admitted(log[..|log| - 1], from, to) +
         if log[|log| - 1].allowed && from <= log[|log| - 1].time <= to then 1 else 0
  }

  /** Admitted calls in lives a, a + 1, ..., b - 1 of the counter. */
  function AdmittedInLives(log: seq<Call>, a: int, b: int): nat {
    if log == [] then 0
    else AdmittedInLives(log[..|log| - 1], a, b) +
         if log[|log| - 1].allowed && a <= log[|log| - 1].life < b then 1 else 0
  }

  /** Admitted calls in one life of the counter. */
  function AdmittedInLife(log: seq<Call>, e: int): nat {
    if log == [] then 0
    else AdmittedInLife(log[..|log| - 1], e) + if log[|log| - 1].allowed && log[|log| - 1].life == e then 1 else 0
  }

  // ---- The invariant of a run ------------------------------------------------------------

  ghost predicate Placed(w: World, c: Call, window: nat) {
    && c.life < |w.starts|
    && w.starts[c.life] <= c.time
    && (c.time < w.starts[c.life] + window || c.time == w.starts[c.life])
  }

  /** Lives of the counter start at least one window apart and never admit more than `limit`. */
  ghost predicate Inv(w: World, limit: nat, window: nat) {
    && (w.counter.count == 0 <==> w.starts == [])
    && (w.starts != [] ==> w.counter.expireAt == w.starts[|w.starts| - 1] + window)
    && Spaced(w.starts, window)
    && (forall i :: 0 <= i < |w.log| ==> Placed(w, w.log[i], window))
    && (forall e :: 0 <= e < |w.starts| ==> AdmittedInLife(w.log, e) <= limit)
    && (w.starts != [] ==> AdmittedInLife(w.log, |w.starts| - 1) == Min(w.counter.count, limit))
  }

  ghost predicate Spaced(starts: seq<nat>, window: nat) {
    forall i, j :: 0 <= i && j == i + 1 && j < |starts| ==> starts[i] + window <= starts[j]
  }

  lemma {:induction false} LivesApart(starts: seq<nat>, window: nat, i: nat, j: nat)
    requires Spaced(starts, window) && i <= j < |starts|
    ensures starts[i] + (j - i) * window <= starts[j]
    decreases j
  {
    if i < j {
      LivesApart(starts, window, i, j - 1);
      assert starts[j - 1] + window <= starts[j];
      assert (j - i) * window == (j - 1 - i) * window + window;
    }
  }

  lemma {:induction false} LogSnoc(log: seq<Call>, c: Call, e: int)
    ensures AdmittedInLife(log + [c], e) == AdmittedInLife(log, e) + if c.allowed && c.life == e then 1 else 0
  {
    assert (log + [c])[..|log|] == log;
  }

  lemma {:induction false} FutureLivesEmpty(log: seq<Call>, e: int)
    requires forall i :: 0 <= i < |log| ==> log[i].life < e
    ensures AdmittedInLife(log, e) == 0
  {
    if log != [] {
      FutureLivesEmpty(log[..|log| - 1], e);
    }
  }

  lemma {:induction false} PlacedKept(w: World, now: nat, limit: nat, window: nat)
    requires Inv(w, limit, window)
    requires w.starts != [] ==> w.starts[|w.starts| - 1] <= now
    ensures var v := Serve(w, now, limit, window);
            forall i :: 0 <= i < |v.log| ==> Placed(v, v.log[i], window)
  {
    var v := Serve(w, now, limit, window);
    forall i | 0 <= i < |v.log| ensures Placed(v, v.log[i], window) {
      if i < |w.log| {
        assert Placed(w, w.log[i], window);
      }
    }
  }

  lemma {:induction false} ServeKeeps(w: World, now: nat, limit: nat, window: nat)
    requires Inv(w, limit, window)
    requires w.starts != [] ==> w.starts[|w.starts| - 1] <= now
    ensures Inv(Serve(w, now, limit, window), limit, window)
  {
    var v := Serve(w, now, limit, window);
    PlacedKept(w, now, limit, window);
    var c := v.log[|w.log|];
    assert Spaced(v.starts, window);
    LivesKept(w, v, c, limit, window);
  }

  lemma {:induction false} LivesKept(w: World, v: World, c: Call, limit: nat, window: nat)
    requires Inv(w, limit, window) && v.log == w.log + [c] && (c.allowed <==> v.counter.count <= limit)
    requires v.starts != [] && c.life == |v.starts| - 1
    requires if v.counter.count == 1 then |v.starts| == |w.starts| + 1
             else v.starts == w.starts && v.counter.count == w.counter.count + 1 && w.counter.count > 0
    ensures forall e :: 0 <= e < |v.starts| ==> AdmittedInLife(v.log, e) <= limit
    ensures AdmittedInLife(v.log, |v.starts| - 1) == Min(v.counter.count, limit)
  {
    forall e | 0 <= e < |v.starts|
      ensures AdmittedInLife(v.log, e) <= limit
      ensures e == |v.starts| - 1 ==> AdmittedInLife(v.log, e) == Min(v.counter.count, limit)
    {
      LogSnoc(w.log, c, e);
      if e == |w.starts| {
        assert forall i :: 0 <= i < |w.log| ==> Placed(w, w.log[i], window);
        FutureLivesEmpty(w.log, e);
      }
    }
  }

  lemma {:induction false} RunKeeps(times: seq<nat>, limit: nat, window: nat)
    requires InOrder(times)
    ensures var w := Run(times, limit, window);
            Inv(w, limit, window) && (w.starts != [] ==> times != [] && w.starts[|w.starts| - 1] <= times[|times| - 1])
  {
    if times != [] {
      var n := |times| - 1;
      RunKeeps(times[..n], limit, window);
      ServeKeeps(Run(times[..n], limit, window), times[n], limit, window);
    }
  }

  // ---- The bound ----------------------------------------------------------------------------

  lemma {:induction false} LivesSplit(log: seq<Call>, a: int, b: int)
    requires a <= b
    ensures AdmittedInLives(log, a, b + 1) == AdmittedInLives(log, a, b) + AdmittedInLife(log, b)
  {
    if log != [] {
      LivesSplit(log[..|log| - 1], a, b);
    }
  }

  lemma {:induction false} LivesBounded(w: World, limit: nat, window: nat, a: nat, n: nat)
    requires Inv(w, limit, window)
    ensures AdmittedInLives(w.log, a, a + n) <= n * limit
    decreases n
  {
    if n == 0 {
      NoLives(w.log, a);
    } else {
      LivesBounded(w, limit, window, a, n - 1);
      LivesSplit(w.log, a, a + n - 1);
      if a + n - 1 >= |w.starts| {
        assert forall i :: 0 <= i < |w.log| ==> Placed(w, w.log[i], window);
        FutureLivesEmpty(w.log, a + n - 1);
      }
      assert n * limit == (n - 1) * limit + limit;
    }
  }

  lemma {:induction false} NoLives(log: seq<Call>, a: int)
    ensures AdmittedInLives(log, a, a) == 0
  {
    if log != [] {
      NoLives(log[..|log| - 1], a);
    }
  }

  lemma MulStep(k: nat, x: nat)
    ensures (k + 1) * x == k * x + x
  {
  }

  lemma {:induction false} MulMonotone(x: nat, y: nat, z: nat)
    requires x <= y
    ensures x * z <= y * z
  {
    assert y * z == x * z + (y - x) * z;
  }

  /** Two calls at most k windows apart are at most k lives apart. */
  lemma {:induction false} LivesNear(w: World, limit: nat, window: nat, k: nat, span: nat, first: nat, i: nat)
    requires Inv(w, limit, window) && window > 0 && span == k * window
    requires first < |w.log| && i < |w.log| && w.log[i].time <= w.log[first].time + span
    ensures w.log[i].life <= w.log[first].life + k
  {
    assert Placed(w, w.log[first], window) && Placed(w, w.log[i], window);
    var a, b := w.log[first].life, w.log[i].life;
    if a + k < b {
      LivesApart(w.starts, window, a, b);
      MulMonotone(k + 1, b - a, window);
      MulStep(k, window);
    }
  }

  lemma {:induction false} IntervalCount(log: seq<Call>, from: int, to: int, a: int, b: int)
    requires forall i :: 0 <= i < |log| && from <= log[i].time <= to ==> a <= log[i].life < b
    ensures Admitted(log, from, to) <= AdmittedInLives(log, a, b)
  {
    if log != [] {
      IntervalCount(log[..|log| - 1], from, to, a, b);
    }
  }

  lemma {:induction false} NoneAdmitted(log: seq<Call>, from: int, to: int)
    requires forall i :: 0 <= i < |log| ==> !(from <= log[i].time <= to)
    ensures Admitted(log, from, to) == 0
  {
    if log != [] {
      NoneAdmitted(log[..|log| - 1], from, to);
    }
  }

  /** The call of the earliest life among those in the interval. */
  lemma {:induction false} EarliestLife(log: seq<Call>, from: int, to: int, i: nat) returns (first: nat)
    requires i < |log| && from <= log[i].time <= to
    ensures first < |log| && from <= log[first].time <= to
    ensures forall j :: 0 <= j < |log| && from <= log[j].time <= to ==> log[first].life <= log[j].life
    decreases log[i].life
  {
    if j :| 0 <= j < |log| && from <= log[j].time <= to && log[j].life < log[i].life {
      first := EarliestLife(log, from, to, j);
    } else {
      first := i;
    }
  }

  /** The calls of the interval [from, to] fall into `n` consecutive lives. */
  ghost predicate Near(log: seq<Call>, from: int, to: int, n: nat) {
    forall i, j :: 0 <= i < |log| && 0 <= j < |log| && from <= log[i].time <= to && from <= log[j].time <= to ==>
      log[i].life < log[j].life + n
  }

  lemma {:induction false} BoundedFrom(w: World, limit: nat, window: nat, from: nat, to: nat, a: nat, n: nat)
    requires Inv(w, limit, window)
    requires forall i :: 0 <= i < |w.log| && from <= w.log[i].time <= to ==> a <= w.log[i].life < a + n
    ensures Admitted(w.log, from, to) <= n * limit
  {
    IntervalCount(w.log, from, to, a, a + n);
    LivesBounded(w, limit, window, a, n);
  }

  lemma {:induction false} IntervalBounded(w: World, limit: nat, window: nat, from: nat, to: nat, n: nat, bound: nat)
    requires Inv(w, limit, window) && Near(w.log, from, to, n) && bound == n * limit
    ensures Admitted(w.log, from, to) <= bound
  {
    if i :| 0 <= i < |w.log| && from <= w.log[i].time <= to {
      var first := EarliestLife(w.log, from, to, i);
      BoundedFrom(w, limit, window, from, to, w.log[first].life, n);
    } else {
      NoneAdmitted(w.log, from, to);
    }
  }

  lemma {:induction false} IntervalNear(w: World, limit: nat, window: nat, from: nat, k: nat, span: nat)
    requires Inv(w, limit, window) && window > 0 && span == k * window
    ensures Near(w.log, from, from + span, k + 1)
  {
    forall i, j | 0 <= i < |w.log| && 0 <= j < |w.log| && from <= w.log[i].time <= from + span && from <= w.log[j].time <= from + span
      ensures w.log[i].life < w.log[j].life + (k + 1)
    {
      LivesNear(w, limit, window, k, span, j, i);
    }
  }

  lemma {:induction false} BoundedRun(times: seq<nat>, limit: nat, window: nat, from: nat, k: nat, span: nat, bound: nat)
    requires InOrder(times) && window > 0 && span == k * window && bound == (k + 1) * limit
    ensures Admitted(Run(times, limit, window).log, from, from + span) <= bound
  {
    var w := Run(times, limit, window);
    RunKeeps(times, limit, window);
    IntervalNear(w, limit, window, from, k, span);
    IntervalBounded(w, limit, window, from, from + span, k + 1, bound);
  }

  lemma MulNat(x: nat, y: nat)
    ensures x * y >= 0
  {
  }

  /**
   Over every history of calls, refused ones included, the closed interval that starts
   anywhere and is k windows long holds at most (k + 1) * limit admissions.
   */
  lemma {:induction false} NeverMoreThan(times: seq<nat>, limit: nat, window: nat, from: nat, k: nat)
    requires InOrder(times) && window > 0
    ensures Admitted(Run(times, limit, window).log, from, from + k * window) <= (k + 1) * limit
  {
    MulNat(k, window);
    MulNat(k + 1, limit);
    BoundedRun(times, limit, window, from, k, k * window, (k + 1) * limit);
  }

  /** A counter without a lifetime never refuses, so the bound needs a positive window. */
  lemma {:induction false} ZeroWindowNeverRefuses(times: seq<nat>, limit: nat)
    requires InOrder(times) && limit > 0
    ensures var w := Run(times, limit, 0);
            && |w.log| == |times|
            && (forall i :: 0 <= i < |times| ==> w.log[i].time == times[i] && w.log[i].allowed)
            && (times != [] ==> w.counter == Counter(1, times[|times| - 1]))
  {
    if times != [] {
      ZeroWindowNeverRefuses(times[..|times| - 1], limit);
    }
  }

  // ---- The bound is attained ------------------------------------------------------------------

  /** `limit` calls at each of the times 0, window, ..., k * window. */
  function Bursts(k: nat, limit: nat, window: nat): seq<nat> {
    (if k == 0 then [] else Bursts(k - 1, limit, window)) + Repeat(k * window, limit)
  }

  function Repeat(t: nat, n: nat): (r: seq<nat>)
    ensures |r| == n
  {
    if n == 0 then [] else Repeat(t, n - 1) + [t]
  }

  /** `n` calls at the same time. */
  function ServeMany(w: World, t: nat, n: nat, limit: nat, window: nat): World {
    if n == 0 then w else Serve(ServeMany(w, t, n - 1, limit, window), t, limit, window)
  }

  lemma {:induction false} RunRepeat(before: seq<nat>, t: nat, n: nat, limit: nat, window: nat)
    ensures Run(before + Repeat(t, n), limit, window) == ServeMany(Run(before, limit, window), t, n, limit, window)
  {
    if n == 0 {
      assert before + Repeat(t, 0) == before;
    } else {
      RunRepeat(before, t, n - 1, limit, window);
      var front := before + Repeat(t, n - 1);
      RunSnoc(front, t, limit, window);
      RepeatSnoc(before, t, n);
    }
  }

  lemma RepeatSnoc(before: seq<nat>, t: nat, n: nat)
    requires n > 0
    ensures before + Repeat(t, n) == (before + Repeat(t, n - 1)) + [t]
  {
  }

  lemma {:induction false} RunSnoc(times: seq<nat>, t: nat, limit: nat, window: nat)
    ensures Run(times + [t], limit, window) == Serve(Run(times, limit, window), t, limit, window)
  {
    assert (times + [t])[..|times|] == times;
  }

  predicate Idle(c: Counter, t: nat) {
    c.count == 0 || c.expireAt <= t
  }

  lemma {:induction false} AdmittedSnoc(log: seq<Call>, c: Call, from: int, to: int)
    ensures Admitted(log + [c], from, to) == Admitted(log, from, to) + if c.allowed && from <= c.time <= to then 1 else 0
  {
    assert (log + [c])[..|log|] == log;
  }

  /** The counter after `n` of the calls of a burst at `t`. */
  ghost predicate InBurst(c: Counter, t: nat, n: nat, window: nat) {
    if n == 0 then Idle(c, t) else c == Counter(n, t + window)
  }

  /** One more call of a burst that is still within the limit. */
  lemma {:induction false} OneMoreCall(w: World, t: nat, n: nat, limit: nat, window: nat, to: nat)
    requires n < limit && window > 0 && t <= to && InBurst(w.counter, t, n, window)
    ensures var v := Serve(w, t, limit, window);
            Admitted(v.log, 0, to) == Admitted(w.log, 0, to) + 1 && InBurst(v.counter, t, n + 1, window)
  {
    var c := Hit(w.counter, t, window);
    assert c == Counter(n + 1, t + window);
    var starts := if c.count == 1 then w.starts + [t] else w.starts;
    AdmittedSnoc(w.log, Call(t, if starts == [] then 0 else |starts| - 1, c.count <= limit), 0, to);
  }

  /** `v` is `w` after `n` admitted calls of a burst. */
  ghost predicate AfterBurst(w: World, v: World, t: nat, n: nat, window: nat, to: nat) {
    Admitted(v.log, 0, to) == Admitted(w.log, 0, to) + n && InBurst(v.counter, t, n, window)
  }

  lemma BurstStart(w: World, t: nat, window: nat, to: nat)
    requires Idle(w.counter, t)
    ensures AfterBurst(w, w, t, 0, window, to)
  {
  }

  lemma {:induction false} BurstStep(w: World, u: World, v: World, t: nat, n: nat, limit: nat, window: nat, to: nat)
    requires n < limit && window > 0 && t <= to && AfterBurst(w, u, t, n, window, to)
    requires v == Serve(u, t, limit, window)
    ensures AfterBurst(w, v, t, n + 1, window, to)
  {
    OneMoreCall(u, t, n, limit, window, to);
  }

  lemma ManyStep(w: World, t: nat, n: nat, limit: nat, window: nat)
    ensures ServeMany(w, t, n + 1, limit, window) == Serve(ServeMany(w, t, n, limit, window), t, limit, window)
  {
  }

  lemma {:induction false} BurstAdmitted(w: World, t: nat, n: nat, limit: nat, window: nat, to: nat, v: World)
    requires n <= limit && window > 0 && t <= to && Idle(w.counter, t)
    requires v == ServeMany(w, t, n, limit, window)
    ensures AfterBurst(w, v, t, n, window, to)
    decreases n
  {
    if n == 0 {
      BurstStart(w, t, window, to);
    } else {
      var u := ServeMany(w, t, n - 1, limit, window);
      ManyStep(w, t, n - 1, limit, window);
      BurstAdmitted(w, t, n - 1, limit, window, to, u);
      BurstStep(w, u, v, t, n - 1, limit, window, to);
    }
  }

  function Total(k: nat, limit: nat): nat {
    if k == 0 then limit else Total(k - 1, limit) + limit
  }

  lemma {:induction false} BurstAfter(before: seq<nat>, t: nat, limit: nat, window: nat, to: nat)
    requires window > 0 && t <= to && Idle(Run(before, limit, window).counter, t)
    ensures var w, v := Run(before, limit, window), Run(before + Repeat(t, limit), limit, window);
            Admitted(v.log, 0, to) == Admitted(w.log, 0, to) + limit && Idle(v.counter, t + window)
  {
    RunRepeat(before, t, limit, limit, window);
    BurstAdmitted(Run(before, limit, window), t, limit, limit, window, to, Run(before + Repeat(t, limit), limit, window));
  }

  lemma {:induction false} BurstsTotal(k: nat, limit: nat, window: nat, to: nat, last: nat)
    requires window > 0 && last == k * window && last <= to
    ensures var w := Run(Bursts(k, limit, window), limit, window);
            Admitted(w.log, 0, to) == Total(k, limit) && Idle(w.counter, last + window)
    decreases k
  {
    if k == 0 {
      BurstAfter([], last, limit, window, to);
    } else {
      MulStep(k - 1, window);
      MulNat(k - 1, window);
      BurstsTotal(k - 1, limit, window, to, last - window);
      BurstAfter(Bursts(k - 1, limit, window), last, limit, window, to);
    }
  }

  lemma {:induction false} TotalIsProduct(k: nat, limit: nat)
    ensures Total(k, limit) == (k + 1) * limit
  {
    if k > 0 {
      TotalIsProduct(k - 1, limit);
    }
    MulStep(k, limit);
  }

  /** Some history fills the bound exactly, for every k and every limit. */
  lemma {:induction false} BoundIsTight(k: nat, limit: nat, window: nat)
    requires window > 0
    ensures Admitted(Run(Bursts(k, limit, window), limit, window).log, 0, k * window) == (k + 1) * limit
  {
    BurstsTotal(k, limit, window, k * window, k * window);
    TotalIsProduct(k, limit);
  }

  /** The limiter for one key. */
  class FixedWindowLimiter {
    var count: nat
    var expireAt: nat

    constructor ()
      ensures Counter(count, expireAt) == START.counter
    {
      count, expireAt := 0, 0;
    }

    method CheckRateLimit(now: nat, limit: nat, window: nat) returns (allowed: bool)
      modifies this
      ensures Counter(count, expireAt) == Hit(old(Counter(count, expireAt)), now, window)
      ensures allowed <==> count <= limit
    {
      if expireAt <= now {
        count := 0;
      }
      count := count + 1;
      if count == 1 {
        expireAt := now + window;
      }
      allowed := count <= limit;
    }
  }
}
