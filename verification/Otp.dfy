/**
 One-time codes: a code key and an attempt-counter key with separate expiries. Issuing
 a new code replaces the code key and leaves the counter key as it is.
 */
module Otp {
  import opened Prelude

  /** A Redis key: its value and, if it has one, the second at which it expires. */
  datatype Cell<T> = Cell(value: T, expireAt: Option<nat>)

  datatype State = State(code: Option<Cell<string>>, attempts: Option<Cell<nat>>)

  const EMPTY := State(None, None)

  datatype OtpVerifyResult = Matched | Invalid(remaining: nat) | Exceeded | NotFound

  predicate Live<T>(c: Option<Cell<T>>, now: nat) {
    c.Some? && (c.value.expireAt.None? || now < c.value.expireAt.value)
  }

  /** SETEX, which refuses a zero time to live. */
  function Store(s: State, code: string, ttl: nat, now: nat): State {
    if ttl == 0 then s else s.(code := Some(Cell(code, Some(now + ttl))))
  }

  /** The counter after INCR and, on a new counter, EXPIRE with the code's remaining time. */
  function Bumped(s: State, now: nat): Cell<nat>
    requires Live(s.code, now)
  {
    if Live(s.attempts, now) then s.attempts.value.(value := s.attempts.value.value + 1)
    else Cell(1, s.code.value.expireAt)
  }

  /** The verification script. */
  function Verify(s: State, submitted: string, max: nat, now: nat): (State, OtpVerifyResult) {
    if !Live(s.code, now) then (s, NotFound)
    else if s.code.value.value == submitted then (EMPTY, Matched)
    else
      var counter := Bumped(s, now);
      if counter.value >= max then (EMPTY, Exceeded)
      else (s.(attempts := Some(counter)), Invalid(max - counter.value))
  }

  datatype Event =
    | Issue(code: string, now: nat)
    | Guess(submitted: string, now: nat)

  function Step(s: State, e: Event, ttl: nat, max: nat): State {
    match e
    case Issue(code, now) => Store(s, code, ttl, now)
    case Guess(submitted, now) => Verify(s, submitted, max, now).0
  }

  function Run(s: State, es: seq<Event>, ttl: nat, max: nat): State {
    if es == [] then s else Step(Run(s, es[..|es| - 1], ttl, max), es[|es| - 1], ttl, max)
  }

  ghost predicate InOrder(es: seq<Event>, start: nat) {
    && (forall i :: 0 <= i < |es| ==> start <= es[i].now)
    && (forall i, j :: 0 <= i < j < |es| ==> es[i].now <= es[j].now)
  }

  /**
   A counter key stands beside a code key, expires no later, and counts 1 to max - 1
   failures; no code key outlives its time to live.
   */
  ghost predicate Inv(s: State, ttl: nat, max: nat, clock: nat) {
    && (s.code.Some? ==> s.code.value.expireAt.Some? && s.code.value.expireAt.value <= clock + ttl)
    && (s.attempts.Some? ==>
          && s.code.Some?
          && s.attempts.value.expireAt.Some?
          && s.attempts.value.expireAt.value <= s.code.value.expireAt.value
          && 1 <= s.attempts.value.value < max)
  }

  function Clock(es: seq<Event>, start: nat): nat {
    if es == [] then start else es[|es| - 1].now
  }

  lemma {:induction false} RunKeeps(s: State, es: seq<Event>, ttl: nat, max: nat, start: nat)
    requires Inv(s, ttl, max, start) && InOrder(es, start)
    ensures Inv(Run(s, es, ttl, max), ttl, max, Clock(es, start))
  {
    if es != [] {
      var n := |es| - 1;
      RunKeeps(s, es[..n], ttl, max, start);
      assert Clock(es[..n], start) <= es[n].now;
    }
  }

  /** In every reachable state, a live counter implies a live code, expires no later and counts 1 to max - 1. */
  lemma {:induction false} LiveCounterImpliesLiveCode(es: seq<Event>, ttl: nat, max: nat, now: nat)
    requires InOrder(es, 0)
    ensures var s := Run(EMPTY, es, ttl, max);
            Live(s.attempts, now) ==>
              && Live(s.code, now)
              && s.attempts.value.expireAt.Some? && s.code.value.expireAt.Some?
              && s.attempts.value.expireAt.value <= s.code.value.expireAt.value
              && 1 <= s.attempts.value.value <= max - 1
  {
    RunKeeps(EMPTY, es, ttl, max, 0);
  }

  // ---- How often one code can be guessed ----------------------------------------------------

  /** Answers to guesses at one stored code: wrong codes are answered Invalid or Exceeded. */
  function Wrong(s: State, guesses: seq<Event>, ttl: nat, max: nat): nat {
    if guesses == [] then 0 else
      var n := |guesses| - 1;
      var before := Run(s, guesses[..n], ttl, max);
      Wrong(s, guesses[..n], ttl, max) + if IsWrong(Answer(before, guesses[n], max)) then 1 else 0
  }

  function Matches(s: State, guesses: seq<Event>, ttl: nat, max: nat): nat {
    if guesses == [] then 0 else
      var n := |guesses| - 1;
      var before := Run(s, guesses[..n], ttl, max);
      Matches(s, guesses[..n], ttl, max) + if Answer(before, guesses[n], max) == Some(Matched) then 1 else 0
  }

  function Answer(s: State, e: Event, max: nat): Option<OtpVerifyResult> {
    if e.Issue? then None else Some(Verify(s, e.submitted, max, e.now).1)
  }

  predicate IsWrong(answer: Option<OtpVerifyResult>) {
    answer.Some? && (answer.value.Invalid? || answer.value.Exceeded?)
  }

  /** Wrong guesses that the stored code can still answer. */
  function Budget(s: State, max: nat, now: nat): int {
    if !Live(s.code, now) then 0
    else if !Live(s.attempts, now) then Max(max, 1)
    else if s.attempts.value.expireAt == s.code.value.expireAt then max - s.attempts.value.value
    else 2 * max - 1 - s.attempts.value.value
  }

  lemma {:induction false} GuessSpends(s: State, e: Event, ttl: nat, max: nat, clock: nat)
    requires Inv(s, ttl, max, clock) && clock <= e.now && e.Guess?
    ensures var spent := if IsWrong(Answer(s, e, max)) then 1 else 0;
            0 <= Budget(Step(s, e, ttl, max), max, e.now) <= Budget(s, max, clock) - spent
  {
  }

  /** The events that leave the stored code in place. */
  ghost predicate OnlyGuesses(es: seq<Event>) {
    forall i :: 0 <= i < |es| ==> es[i].Guess?
  }

  lemma {:induction false} BudgetSpent(s: State, guesses: seq<Event>, ttl: nat, max: nat, start: nat)
    requires Inv(s, ttl, max, start) && InOrder(guesses, start) && OnlyGuesses(guesses)
    ensures var t := Run(s, guesses, ttl, max);
            0 <= Budget(t, max, Clock(guesses, start)) <= Budget(s, max, start) - Wrong(s, guesses, ttl, max)
  {
    if guesses != [] {
      var n := |guesses| - 1;
      BudgetSpent(s, guesses[..n], ttl, max, start);
      RunKeeps(s, guesses[..n], ttl, max, start);
      GuessSpends(Run(s, guesses[..n], ttl, max), guesses[n], ttl, max, Clock(guesses[..n], start));
    }
  }

  lemma {:induction false} MatchedOnce(s: State, guesses: seq<Event>, ttl: nat, max: nat)
    requires OnlyGuesses(guesses)
    ensures Matches(s, guesses, ttl, max) <= 1
    ensures Matches(s, guesses, ttl, max) == 1 ==> Run(s, guesses, ttl, max).code == None
  {
    if guesses != [] {
      MatchedOnce(s, guesses[..|guesses| - 1], ttl, max);
    }
  }

  /** Every wrong answer spends a guess, and after the one match the code is gone. */
  lemma {:induction false} GuessesSpend(s: State, guesses: seq<Event>, ttl: nat, max: nat, start: nat)
    requires Inv(s, ttl, max, start) && InOrder(guesses, start) && OnlyGuesses(guesses)
    ensures var t := Run(s, guesses, ttl, max);
            && 0 <= Budget(t, max, Clock(guesses, start)) <= Budget(s, max, start) - Wrong(s, guesses, ttl, max)
            && Matches(s, guesses, ttl, max) <= 1
            && (Matches(s, guesses, ttl, max) == 1 ==> t.code == None)
  {
    BudgetSpent(s, guesses, ttl, max, start);
    MatchedOnce(s, guesses, ttl, max);
  }

  /** The bound on wrong guesses for one stored code. */
  function Bound(max: nat): nat {
    Max(Max(max, 1), 2 * max - 2)
  }

  /**
   After any history, one stored code matches at most once and answers at most
   max(max, 2 * max - 2) wrong guesses, or max if no counter was live when it was stored.
   */
  lemma {:induction false} OneCodeIsBounded(before: seq<Event>, code: string, now: nat, guesses: seq<Event>, ttl: nat, max: nat)
    requires InOrder(before, 0) && Clock(before, 0) <= now
    requires InOrder(guesses, now) && OnlyGuesses(guesses) && ttl > 0
    ensures var earlier := Run(EMPTY, before, ttl, max);
            var s := Store(earlier, code, ttl, now);
            && Matches(s, guesses, ttl, max) <= 1
            && Wrong(s, guesses, ttl, max) <= Bound(max)
            && (!Live(earlier.attempts, now) ==> Wrong(s, guesses, ttl, max) <= Max(max, 1))
  {
    var earlier := Run(EMPTY, before, ttl, max);
    var s := Store(earlier, code, ttl, now);
    RunKeeps(EMPTY, before, ttl, max, 0);
    GuessesSpend(s, guesses, ttl, max, now);
  }

  // ---- The bound is attained ------------------------------------------------------------------

  /** `n` guesses of the same wrong code at the same second. */
  function Guesses(wrong: string, now: nat, n: nat): seq<Event> {
    if n == 0 then [] else Guesses(wrong, now, n - 1) + [Guess(wrong, now)]
  }

  lemma {:induction false} GuessesShape(wrong: string, now: nat, n: nat)
    ensures |Guesses(wrong, now, n)| == n && forall i :: 0 <= i < n ==> Guesses(wrong, now, n)[i] == Guess(wrong, now)
  {
    if n > 0 {
      GuessesShape(wrong, now, n - 1);
    }
  }

  lemma {:induction false} WrongSnoc(s: State, es: seq<Event>, e: Event, ttl: nat, max: nat)
    ensures Run(s, es + [e], ttl, max) == Step(Run(s, es, ttl, max), e, ttl, max)
    ensures Wrong(s, es + [e], ttl, max) ==
            Wrong(s, es, ttl, max) + if IsWrong(Answer(Run(s, es, ttl, max), e, max)) then 1 else 0
  {
    assert (es + [e])[..|es|] == es;
  }

  lemma {:induction false} WrongAppend(s: State, es: seq<Event>, fs: seq<Event>, ttl: nat, max: nat)
    ensures Run(s, es + fs, ttl, max) == Run(Run(s, es, ttl, max), fs, ttl, max)
    ensures Wrong(s, es + fs, ttl, max) == Wrong(s, es, ttl, max) + Wrong(Run(s, es, ttl, max), fs, ttl, max)
  {
    if fs == [] {
      assert es + fs == es;
    } else {
      var n := |fs| - 1;
      WrongAppend(s, es, fs[..n], ttl, max);
      assert es + fs == (es + fs[..n]) + [fs[n]];
      WrongSnoc(s, es + fs[..n], fs[n], ttl, max);
    }
  }

  /** How many failures the live counter holds. */
  function Failures(s: State, now: nat): nat {
    if Live(s.attempts, now) then s.attempts.value.value else 0
  }

  /** One wrong guess that the counter still allows. */
  lemma {:induction false} OneInvalid(s: State, wrong: string, now: nat, max: nat)
    requires Live(s.code, now) && s.code.value.value != wrong && Failures(s, now) + 1 < max
    ensures var (t, r) := Verify(s, wrong, max, now);
            && r.Invalid? && t.code == s.code && Live(t.attempts, now) && Failures(t, now) == Failures(s, now) + 1
            && (Live(s.attempts, now) ==> t.attempts.value.expireAt == s.attempts.value.expireAt)
  {
  }

  /** A code that is not the guessed one is live, and its counter holds `failures` failures. */
  ghost predicate Guessable(s: State, wrong: string, now: nat, failures: nat) {
    Live(s.code, now) && s.code.value.value != wrong && Failures(s, now) == failures
  }

  /** The state after `n` such guesses, and how many were answered as wrong. */
  function Tries(s: State, wrong: string, now: nat, n: nat, max: nat): (State, nat) {
    if n == 0 then (s, 0) else
      var (t, count) := Tries(s, wrong, now, n - 1, max);
      var (u, r) := Verify(t, wrong, max, now);
      (u, if r.Invalid? || r.Exceeded? then count + 1 else count)
  }

  /** Guessing once more, from the state the guesses so far have left. */
  lemma {:induction false} TryOnce(s: State, guesses: seq<Event>, wrong: string, now: nat, ttl: nat, max: nat, t: State, count: nat)
    requires Run(s, guesses, ttl, max) == t && Wrong(s, guesses, ttl, max) == count
    ensures var (u, r) := Verify(t, wrong, max, now);
            && Run(s, guesses + [Guess(wrong, now)], ttl, max) == u
            && Wrong(s, guesses + [Guess(wrong, now)], ttl, max) == (if r.Invalid? || r.Exceeded? then count + 1 else count)
  {
    WrongSnoc(s, guesses, Guess(wrong, now), ttl, max);
  }

  lemma {:induction false} TriesAreGuesses(s: State, wrong: string, now: nat, n: nat, ttl: nat, max: nat)
    ensures Run(s, Guesses(wrong, now, n), ttl, max) == Tries(s, wrong, now, n, max).0
    ensures Wrong(s, Guesses(wrong, now, n), ttl, max) == Tries(s, wrong, now, n, max).1
  {
    if n > 0 {
      var (t, count) := Tries(s, wrong, now, n - 1, max);
      TriesAreGuesses(s, wrong, now, n - 1, ttl, max);
      TryOnce(s, Guesses(wrong, now, n - 1), wrong, now, ttl, max, t, count);
    }
  }

  lemma {:induction false} OneMoreInvalid(s: State, wrong: string, now: nat, failures: nat, max: nat)
    requires Guessable(s, wrong, now, failures) && failures + 1 < max
    ensures var (t, r) := Verify(s, wrong, max, now);
            && r.Invalid? && t.code == s.code && Guessable(t, wrong, now, failures + 1)
            && (Live(s.attempts, now) ==> t.attempts.Some? && t.attempts.value.expireAt == s.attempts.value.expireAt)
  {
    OneInvalid(s, wrong, now, max);
  }

  /** Wrong guesses below the limit are all answered, and the counter keeps its first expiry. */
  lemma {:induction false} ManyInvalid(s: State, wrong: string, now: nat, failures: nat, n: nat, max: nat)
    requires Guessable(s, wrong, now, failures) && failures + n < max
    ensures var (t, count) := Tries(s, wrong, now, n, max);
            && count == n && t.code == s.code && Guessable(t, wrong, now, failures + n)
            && (Live(s.attempts, now) ==> t.attempts.Some? && t.attempts.value.expireAt == s.attempts.value.expireAt)
    decreases n
  {
    if n > 0 {
      ManyInvalid(s, wrong, now, failures, n - 1, max);
      OneMoreInvalid(Tries(s, wrong, now, n - 1, max).0, wrong, now, failures + n - 1, max);
    }
  }

  lemma {:induction false} LastIsWrong(s: State, wrong: string, now: nat, max: nat)
    requires max > 0 && Guessable(s, wrong, now, max - 1)
    ensures Verify(s, wrong, max, now).1.Exceeded?
  {
  }

  /** Without a live counter a live code answers `max` wrong guesses. */
  lemma {:induction false} FullRound(s: State, wrong: string, now: nat, max: nat)
    requires Guessable(s, wrong, now, 0) && max > 0
    ensures Tries(s, wrong, now, max, max).1 == max
  {
    ManyInvalid(s, wrong, now, 0, max - 1, max);
    LastIsWrong(Tries(s, wrong, now, max - 1, max).0, wrong, now, max);
  }

  /** A code is stored at second 0 and guessed wrong once; a second code is stored one second later. */
  function SecondCode(first: string, second: string, wrong: string, ttl: nat, max: nat): State {
    Store(Step(Store(EMPTY, first, ttl, 0), Guess(wrong, 0), ttl, max), second, ttl, 1)
  }

  /** As many guesses as the old counter leaves, and a full round when it has expired. */
  function TwoRounds(wrong: string, ttl: nat, max: nat): seq<Event>
    requires max >= 2
  {
    Guesses(wrong, 1, max - 2) + Guesses(wrong, ttl, max)
  }

  lemma {:induction false} SecondCodeIs(first: string, second: string, wrong: string, ttl: nat, max: nat)
    requires wrong != first && ttl >= 2 && max >= 2
    ensures SecondCode(first, second, wrong, ttl, max) == State(Some(Cell(second, Some(1 + ttl))), Some(Cell(1, Some(ttl))))
  {
    assert Store(EMPTY, first, ttl, 0) == State(Some(Cell(first, Some(ttl))), None);
  }

  /** When the old counter expires, the second code has one second left. */
  lemma {:induction false} TwoRoundsWrong(s: State, second: string, wrong: string, ttl: nat, max: nat)
    requires s == State(Some(Cell(second, Some(1 + ttl))), Some(Cell(1, Some(ttl))))
    requires wrong != second && ttl >= 2 && max >= 2
    ensures Wrong(s, TwoRounds(wrong, ttl, max), ttl, max) == 2 * max - 2
  {
    var early, t := Guesses(wrong, 1, max - 2), Tries(s, wrong, 1, max - 2, max).0;
    ManyInvalid(s, wrong, 1, 1, max - 2, max);
    FullRound(t, wrong, ttl, max);
    TriesAreGuesses(s, wrong, 1, max - 2, ttl, max);
    TriesAreGuesses(t, wrong, ttl, max, ttl, max);
    WrongAppend(s, early, Guesses(wrong, ttl, max), ttl, max);
  }

  /** Some run attains the bound, for every limit and every lifetime from 2 on. */
  lemma {:induction false} BoundIsAttained(first: string, second: string, wrong: string, ttl: nat, max: nat)
    requires wrong != first && wrong != second && ttl >= 2 && max >= 2
    ensures var guesses := TwoRounds(wrong, ttl, max);
            && OnlyGuesses(guesses) && InOrder(guesses, 1)
            && Wrong(SecondCode(first, second, wrong, ttl, max), guesses, ttl, max) == 2 * max - 2 == Bound(max)
  {
    SecondCodeIs(first, second, wrong, ttl, max);
    GuessesShape(wrong, 1, max - 2);
    GuessesShape(wrong, ttl, max);
    TwoRoundsWrong(SecondCode(first, second, wrong, ttl, max), second, wrong, ttl, max);
  }

  /** With three attempts, as every caller configures, the bound is 4, and it is attained. */
  lemma {:induction false} FourWrongGuesses(a: string, b: string, wrong: string, ttl: nat)
    requires wrong != a && wrong != b && ttl >= 2
    ensures Wrong(SecondCode(a, b, wrong, ttl, 3), TwoRounds(wrong, ttl, 3), ttl, 3) == 4 == Bound(3)
  {
    BoundIsAttained(a, b, wrong, ttl, 3);
  }

  // ---- What each submission is answered --------------------------------------------------------

  /**
   Every answer: the right code is matched, and spends both keys; a wrong one counts, with the
   number of submissions left; the last of them spends both keys as well.
   */
  lemma {:induction false} AnswersExactly(s: State, submitted: string, max: nat, now: nat)
    ensures var (t, r) := Verify(s, submitted, max, now);
            && (r == Matched <==> Live(s.code, now) && s.code.value.value == submitted)
            && (r == NotFound <==> !Live(s.code, now))
            && (r == Exceeded <==> Live(s.code, now) && s.code.value.value != submitted && Failures(s, now) + 1 >= max)
            && (forall left :: r == Invalid(left) <==>
                  Live(s.code, now) && s.code.value.value != submitted && left > 0 && Failures(s, now) + 1 + left == max)
            && (r == Matched || r == Exceeded ==> t == EMPTY)
            && (r == NotFound ==> t == s)
            && (r.Invalid? ==> t.code == s.code && t.attempts.Some? && t.attempts.value.value == Failures(s, now) + 1)
  {
  }

  /** Submissions of anything but this code. */
  ghost predicate WrongGuesses(guesses: seq<Event>, code: string) {
    forall i :: 0 <= i < |guesses| ==> guesses[i].Guess? && guesses[i].submitted != code
  }

  /** The stored code with as many failures counted as there were guesses. */
  ghost predicate StillStored(s: State, code: string, expiry: nat, guesses: nat, now: nat) {
    && s.code == Some(Cell(code, Some(expiry)))
    && Failures(s, now) == guesses
    && (guesses > 0 ==> s.attempts == Some(Cell(guesses, Some(expiry))))
    && (guesses == 0 ==> !Live(s.attempts, now))
  }

  lemma {:induction false} WrongGuessCounts(s: State, code: string, expiry: nat, guesses: nat, before: nat, e: Event, ttl: nat, max: nat)
    requires StillStored(s, code, expiry, guesses, before) && before <= e.now < expiry
    requires e.Guess? && e.submitted != code && guesses + 1 < max
    ensures StillStored(Step(s, e, ttl, max), code, expiry, guesses + 1, e.now)
  {
  }

  lemma StillStoredLater(s: State, code: string, expiry: nat, guesses: nat, before: nat, now: nat)
    requires StillStored(s, code, expiry, guesses, before) && before <= now < expiry
    ensures StillStored(s, code, expiry, guesses, now)
  {
  }

  lemma {:induction false} WrongGuessesCount(s: State, code: string, expiry: nat, start: nat, guesses: seq<Event>, ttl: nat, max: nat)
    requires StillStored(s, code, expiry, 0, start) && InOrder(guesses, start) && WrongGuesses(guesses, code)
    requires |guesses| < max && Clock(guesses, start) < expiry
    ensures StillStored(Run(s, guesses, ttl, max), code, expiry, |guesses|, Clock(guesses, start))
  {
    if guesses != [] {
      var n := |guesses| - 1;
      assert Clock(guesses[..n], start) <= guesses[n].now;
      WrongGuessesCount(s, code, expiry, start, guesses[..n], ttl, max);
      WrongGuessCounts(Run(s, guesses[..n], ttl, max), code, expiry, n, Clock(guesses[..n], start), guesses[n], ttl, max);
    }
  }

  /**
   After any history, a stored code is matched until it expires if fewer than `max` wrong
   guesses came before, and a wrong code is told how many submissions are left; unless a
   counter was live when the code was stored.
   */
  lemma {:induction false} RightCodeIsMatched(earlier: State, code: string, other: string, now: nat, guesses: seq<Event>, at: nat, ttl: nat, max: nat)
    requires earlier.attempts.None? || (earlier.attempts.value.expireAt.Some? && earlier.attempts.value.expireAt.value <= now)
    requires InOrder(guesses, now) && WrongGuesses(guesses, code) && |guesses| < max && other != code
    requires Clock(guesses, now) <= at < now + ttl
    ensures var s := Run(Store(earlier, code, ttl, now), guesses, ttl, max);
            && Verify(s, code, max, at).1 == Matched
            && Verify(s, other, max, at).1 == if |guesses| + 1 == max then Exceeded else Invalid(max - |guesses| - 1)
  {
    var stored := Store(earlier, code, ttl, now);
    assert StillStored(stored, code, now + ttl, 0, now);
    WrongGuessesCount(stored, code, now + ttl, now, guesses, ttl, max);
    StillStoredLater(Run(stored, guesses, ttl, max), code, now + ttl, |guesses|, Clock(guesses, now), at);
  }

  lemma {:induction false} CodeOnlyGoes(s: State, guesses: seq<Event>, ttl: nat, max: nat)
    requires OnlyGuesses(guesses)
    ensures Run(s, guesses, ttl, max).code == s.code || Run(s, guesses, ttl, max).code.None?
  {
    if guesses != [] {
      CodeOnlyGoes(s, guesses[..|guesses| - 1], ttl, max);
    }
  }

  /** No submission after its lifetime finds a code, whatever was guessed before. */
  lemma {:induction false} ExpiredCodeIsGone(s: State, guesses: seq<Event>, code: string, now: nat, submitted: string, at: nat, ttl: nat, max: nat)
    requires ttl > 0 && OnlyGuesses(guesses) && at >= now + ttl
    ensures Verify(Run(Store(s, code, ttl, now), guesses, ttl, max), submitted, max, at).1 == NotFound
  {
    CodeOnlyGoes(Store(s, code, ttl, now), guesses, ttl, max);
  }

  /** The two Redis keys of one OTP subject. */
  class OtpService {
    var code: Option<Cell<string>>
    var attempts: Option<Cell<nat>>
    const otpTtl: nat

    constructor (otpTtl: nat)
      ensures State(code, attempts) == EMPTY && this.otpTtl == otpTtl
    {
      code, attempts := None, None;
      this.otpTtl := otpTtl;
    }

    method StoreOtp(newCode: string, now: nat) returns (ok: bool)
      modifies this
      ensures State(code, attempts) == Store(old(State(code, attempts)), newCode, otpTtl, now)
      ensures ok <==> otpTtl > 0
    {
      if otpTtl == 0 {
        return false;
      }
      code := Some(Cell(newCode, Some(now + otpTtl)));
      return true;
    }

    method VerifyOtpWithLimit(submitted: string, maxAttempts: nat, now: nat) returns (r: OtpVerifyResult)
      modifies this
      ensures (State(code, attempts), r) == Verify(old(State(code, attempts)), submitted, maxAttempts, now)
    {
      if !Live(code, now) {
        return NotFound;
      }
      if code.value.value == submitted {
        code, attempts := None, None;
        return Matched;
      }
      var count := 1;
      var expiry := None;
      if Live(attempts, now) {
        count := attempts.value.value + 1;
        expiry := attempts.value.expireAt;
      }
      if !Live(attempts, now) {
        expiry := code.value.expireAt;
      }
      attempts := Some(Cell(count, expiry));
      if count >= maxAttempts {
        code, attempts := None, None;
        return Exceeded;
      }
      return Invalid(maxAttempts - count);
    }
  }
}
