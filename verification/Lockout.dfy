/**
 * The login lockout of one account: a failure counter and a lock key without expiry. Clock readings are in
 * milliseconds; the lock key stores its end in whole seconds.
 */
module Lockout {
  import opened Options
  import opened Timezone

  /** The two Redis keys of the account. */
  datatype Account = Account(failures: Option<int>, lock: Option<int>)

  datatype Verdict =
    | Disabled
    | Locked
    | WrongPassword
    | WrongPasswordLocks
    | PasswordExpired
    | Verified

  /** `expired` tells whether the password, if right, is past its last day. `failAt` is read after `checkAt`. */
  datatype Attempt = Attempt(enabled: bool, right: bool, expired: bool, checkAt: int, failAt: int)

  const NO_KEYS := Account(None, None)

  function Count(a: Account): int {
    if a.failures.Some? then a.failures.value else 0
  }

  // ---------------------------------------------------------------- one attempt

  function Checked(a: Account, enabled: bool, now: int): (Account, Option<Verdict>) {
    if !enabled then (a, Some(Disabled))
    else if a.lock.None? then (a, None)
    else if a.lock.value > now then (a, Some(Locked))
    else (NO_KEYS, None)
  }

  function Failed(a: Account, threshold: int, seconds: int, now: int): (Account, Verdict) {
    if threshold == 0 then (a, WrongPassword)
    else if Count(a) + 1 < threshold then (a.(failures := Some(Count(a) + 1)), WrongPassword)
    else (Account(Some(Count(a) + 1), Some(WholeSeconds(now + 1000 * seconds))), WrongPasswordLocks)
  }

  function Attempted(a: Account, threshold: int, seconds: int, t: Attempt): (Account, Verdict) {
    var (b, refusal) := Checked(a, t.enabled, t.checkAt);
    if refusal.Some? then (b, refusal.value)
    else if !t.right then Failed(b, threshold, seconds, t.failAt)
    else if t.expired then (b, PasswordExpired)
    else (NO_KEYS, Verified)
  }

  /** The account's services: `check_status`, `handle_login_failure`, `handle_login_success`, `user_verify`. */
  class PasswordSecurity {
    const threshold: int
    const seconds: int
    var failures: Option<int>
    var lock: Option<int>

    ghost function Keys(): Account
      reads this
    {
      Account(failures, lock)
    }

    constructor (threshold: int, seconds: int)
      ensures Keys() == NO_KEYS && this.threshold == threshold && this.seconds == seconds
    {
      this.threshold, this.seconds := threshold, seconds;
      failures, lock := None, None;
    }

    method CheckStatus(enabled: bool, now: int) returns (refusal: Option<Verdict>)
      modifies this
      ensures (Keys(), refusal) == Checked(old(Keys()), enabled, now)
    {
      if !enabled {
        return Some(Disabled);
      }
      if lock.Some? {
        if lock.value > now {
          return Some(Locked);
        }
        lock := None;
        failures := None;
      }
      refusal := None;
    }

    method HandleLoginFailure(now: int) returns (verdict: Verdict)
      modifies this
      ensures (Keys(), verdict) == Failed(old(Keys()), threshold, seconds, now)
    {
      if threshold == 0 {
        return WrongPassword;
      }
      var count := if failures.Some? then failures.value else 0;
      count := count + 1;
      failures := Some(count);
      if count >= threshold {
        lock := Some(WholeSeconds(now + 1000 * seconds));
        return WrongPasswordLocks;
      }
      verdict := WrongPassword;
    }

    method HandleLoginSuccess()
      modifies this
      ensures Keys() == NO_KEYS
    {
      lock := None;
      failures := None;
    }

    method UserVerify(t: Attempt) returns (verdict: Verdict)
      modifies this
      ensures (Keys(), verdict) == Attempted(old(Keys()), threshold, seconds, t)
    {
      var refusal := CheckStatus(t.enabled, t.checkAt);
      if refusal.Some? {
        return refusal.value;
      }
      if !t.right {
        verdict := HandleLoginFailure(t.failAt);
        return;
      }
      if t.expired {
        return PasswordExpired;
      }
      HandleLoginSuccess();
      verdict := Verified;
    }
  }

  // ---------------------------------------------------------------- runs

  function Exec(a: Account, threshold: int, seconds: int, run: seq<Attempt>): Account {
    if run == [] then a
    else Attempted(Exec(a, threshold, seconds, run[..|run| - 1]), threshold, seconds, run[|run| - 1]).0
  }

  function VerdictAt(a: Account, threshold: int, seconds: int, run: seq<Attempt>, i: nat): Verdict
    requires i < |run|
  {
    Attempted(Exec(a, threshold, seconds, run[..i]), threshold, seconds, run[i]).1
  }

  /** The clock never goes back. */
  predicate Timely(run: seq<Attempt>) {
    && (forall i :: 0 <= i < |run| ==> run[i].checkAt <= run[i].failAt)
    && forall i, j :: 0 <= i < j < |run| ==> run[i].failAt <= run[j].checkAt
  }

  predicate NoSuccess(a: Account, threshold: int, seconds: int, run: seq<Attempt>) {
    forall i :: 0 <= i < |run| ==> VerdictAt(a, threshold, seconds, run, i) != Verified
  }

  /** The password was compared with the stored one. */
  predicate Evaluated(v: Verdict) {
    v != Disabled && v != Locked
  }

  function Evaluations(a: Account, threshold: int, seconds: int, run: seq<Attempt>): nat {
    if run == [] then 0
    else
      var n := |run| - 1;
      Evaluations(a, threshold, seconds, run[..n])
      + if Evaluated(VerdictAt(a, threshold, seconds, run, n)) then 1 else 0
  }

  /** Evaluations whose password was right but expired; they leave the counter alone. */
  function Uncounted(a: Account, threshold: int, seconds: int, run: seq<Attempt>): nat {
    if run == [] then 0
    else
      var n := |run| - 1;
      Uncounted(a, threshold, seconds, run[..n])
      + if VerdictAt(a, threshold, seconds, run, n) == PasswordExpired then 1 else 0
  }

  // ---------------------------------------------------------------- the counter and the lock

  /** The counter never exceeds the threshold, and there is a lock exactly when it has reached it. */
  predicate Guarded(a: Account, threshold: int) {
    0 <= Count(a) <= threshold && (a.lock.Some? <==> Count(a) == threshold)
  }

  lemma StepGuarded(a: Account, threshold: int, seconds: int, t: Attempt)
    requires threshold >= 1 && Guarded(a, threshold)
    ensures Guarded(Attempted(a, threshold, seconds, t).0, threshold)
  {
  }

  lemma {:induction false} RunGuarded(a: Account, threshold: int, seconds: int, run: seq<Attempt>)
    requires threshold >= 1 && Guarded(a, threshold)
    ensures Guarded(Exec(a, threshold, seconds, run), threshold)
  {
    if run != [] {
      var front := run[..|run| - 1];
      RunGuarded(a, threshold, seconds, front);
      StepGuarded(Exec(a, threshold, seconds, front), threshold, seconds, run[|run| - 1]);
    }
  }

  /**
   * Which verdict an attempt gets. `Locked` means that there is a lock and it ends after the check; a lock that is
   * over counts as none, and the failures before it do not count. A wrong password locks when it is failure number
   * `threshold`, and never if that is 0.
   */
  lemma VerdictExactly(a: Account, threshold: int, seconds: int, t: Attempt)
    ensures var verdict := Attempted(a, threshold, seconds, t).1;
      var locked := a.lock.Some? && t.checkAt < a.lock.value;
      var failure := 1 + if a.lock.Some? || a.failures.None? then 0 else a.failures.value;
      && (verdict == Disabled <==> !t.enabled)
      && (verdict == Locked <==> t.enabled && locked)
      && (verdict == Verified <==> t.enabled && !locked && t.right && !t.expired)
      && (verdict == PasswordExpired <==> t.enabled && !locked && t.right && t.expired)
      && (verdict == WrongPasswordLocks <==>
            t.enabled && !locked && !t.right && threshold != 0 && failure >= threshold)
      && (verdict == WrongPassword <==>
            t.enabled && !locked && !t.right && (threshold == 0 || failure < threshold))
  {
  }

  /** What each verdict leaves of the two keys. */
  lemma KeysExactly(a: Account, threshold: int, seconds: int, t: Attempt)
    ensures var (b, verdict) := Attempted(a, threshold, seconds, t);
      var before := if a.lock.Some? then None else a.failures;
      var failure := 1 + if before.None? then 0 else before.value;
      && (verdict == Disabled || verdict == Locked ==> b == a)
      && (verdict == Verified ==> b.lock.None? && b.failures.None?)
      && (verdict == PasswordExpired ==> b.lock.None? && b.failures == before)
      && (verdict == WrongPassword ==>
            b.lock.None? && b.failures == if threshold == 0 then before else Some(failure))
      && (verdict == WrongPasswordLocks ==>
            && b.failures == Some(failure) && b.lock.Some?
            && t.failAt + 1000 * (seconds - 1) < b.lock.value <= t.failAt + 1000 * seconds
            && b.lock.value % 1000 == 0)
  {
    LessThanASecond(t.failAt + 1000 * seconds);
  }

  /** Wrong passwords that were compared since the last success and the last unlocking. */
  function WrongSince(a: Account, threshold: int, seconds: int, run: seq<Attempt>): nat {
    if run == [] then 0
    else
      var n := |run| - 1;
      var s, v := Exec(a, threshold, seconds, run[..n]), VerdictAt(a, threshold, seconds, run, n);
      if v == Verified then 0
      else
        (if Unlocks(s, run[n]) then 0 else WrongSince(a, threshold, seconds, run[..n]))
        + if v == WrongPassword || v == WrongPasswordLocks then 1 else 0
  }

  lemma {:induction false} CountsWrong(threshold: int, seconds: int, run: seq<Attempt>)
    requires threshold >= 1
    ensures Count(Exec(NO_KEYS, threshold, seconds, run)) == WrongSince(NO_KEYS, threshold, seconds, run)
  {
    if run != [] {
      CountsWrong(threshold, seconds, run[..|run| - 1]);
      RunGuarded(NO_KEYS, threshold, seconds, run[..|run| - 1]);
    }
  }

  /** Over every history a wrong password locks exactly when it is the T-th one since the last success or unlocking. */
  lemma LocksAtThreshold(threshold: int, seconds: int, history: seq<Attempt>, i: nat)
    requires threshold >= 1 && i < |history|
    requires VerdictAt(NO_KEYS, threshold, seconds, history, i) in {WrongPassword, WrongPasswordLocks}
    ensures VerdictAt(NO_KEYS, threshold, seconds, history, i) == WrongPasswordLocks
       <==> WrongSince(NO_KEYS, threshold, seconds, history[..i + 1]) == threshold
  {
    var run := history[..i + 1];
    assert run[..i] == history[..i];
    CountsWrong(threshold, seconds, run);
    RunGuarded(NO_KEYS, threshold, seconds, run);
    RunGuarded(NO_KEYS, threshold, seconds, run[..i]);
  }

  /** Cutting to whole seconds costs a lock less than one second. */
  lemma LockLength(now: int, seconds: int)
    ensures now + 1000 * (seconds - 1) < WholeSeconds(now + 1000 * seconds) <= now + 1000 * seconds
  {
    LessThanASecond(now + 1000 * seconds);
  }

  // ---------------------------------------------------------------- how many guesses

  /** The attempt found a lock that was over, and took it and the counter away. */
  predicate Unlocks(a: Account, t: Attempt) {
    t.enabled && a.lock.Some? && a.lock.value <= t.checkAt
  }

  function Unlockings(a: Account, threshold: int, seconds: int, run: seq<Attempt>): nat {
    if run == [] then 0
    else
      var n := |run| - 1;
      Unlockings(a, threshold, seconds, run[..n])
      + if Unlocks(Exec(a, threshold, seconds, run[..n]), run[n]) then 1 else 0
  }

  function One(b: bool): int {
    if b then 1 else 0
  }

  lemma FrontNoSuccess(a: Account, threshold: int, seconds: int, run: seq<Attempt>)
    requires run != [] && NoSuccess(a, threshold, seconds, run)
    ensures NoSuccess(a, threshold, seconds, run[..|run| - 1])
  {
    var front := run[..|run| - 1];
    forall i | 0 <= i < |front| ensures VerdictAt(a, threshold, seconds, front, i) != Verified {
      assert front[..i] == run[..i];
      assert VerdictAt(a, threshold, seconds, run, i) != Verified;
    }
  }

  /** What one attempt without success adds. */
  lemma StepCounts(a: Account, threshold: int, seconds: int, t: Attempt)
    requires threshold >= 1 && Guarded(a, threshold)
    requires Attempted(a, threshold, seconds, t).1 != Verified
    ensures var (b, v) := Attempted(a, threshold, seconds, t);
      One(Evaluated(v)) - One(v == PasswordExpired) == Count(b) - Count(a) + (if Unlocks(a, t) then threshold else 0)
  {
  }

  /** The last attempt of a run adds to its three counts. */
  lemma CountsSnoc(a: Account, threshold: int, seconds: int, run: seq<Attempt>)
    requires run != []
    ensures var front, last := run[..|run| - 1], run[|run| - 1];
      var s := Exec(a, threshold, seconds, front);
      var v := Attempted(s, threshold, seconds, last).1;
      && Evaluations(a, threshold, seconds, run) == Evaluations(a, threshold, seconds, front) + One(Evaluated(v))
      && Uncounted(a, threshold, seconds, run)
         == Uncounted(a, threshold, seconds, front) + One(v == PasswordExpired)
      && Unlockings(a, threshold, seconds, run) == Unlockings(a, threshold, seconds, front) + One(Unlocks(s, last))
  {
  }

  lemma AddUp(threshold: int, front: int, added: int, before: int, between: int, after: int, k: int, more: bool)
    requires front == between - before + threshold * k
    requires added == after - between + (if more then threshold else 0)
    ensures front + added == after - before + threshold * (k + One(more))
  {
    assert threshold * (k + 1) == threshold * k + threshold;
  }

  /** Between two unlockings the counter was filled once. */
  lemma {:induction false} EvaluationsPerUnlocking(a: Account, threshold: int, seconds: int, run: seq<Attempt>)
    requires threshold >= 1 && Guarded(a, threshold) && NoSuccess(a, threshold, seconds, run)
    ensures Evaluations(a, threshold, seconds, run) - Uncounted(a, threshold, seconds, run)
         == Count(Exec(a, threshold, seconds, run)) - Count(a) + threshold * Unlockings(a, threshold, seconds, run)
  {
    if run != [] {
      var n := |run| - 1;
      var front := run[..n];
      var s := Exec(a, threshold, seconds, front);
      var v := VerdictAt(a, threshold, seconds, run, n);
      FrontNoSuccess(a, threshold, seconds, run);
      EvaluationsPerUnlocking(a, threshold, seconds, front);
      RunGuarded(a, threshold, seconds, front);
      StepCounts(s, threshold, seconds, run[n]);
      CountsSnoc(a, threshold, seconds, run);
      AddUp(threshold, Evaluations(a, threshold, seconds, front) - Uncounted(a, threshold, seconds, front),
            One(Evaluated(v)) - One(v == PasswordExpired), Count(a), Count(s),
            Count(Exec(a, threshold, seconds, run)), Unlockings(a, threshold, seconds, front), Unlocks(s, run[n]));
    }
  }

  /** Since `begin` there were k unlockings, the last one before `now`, each `gap` after the one before. */
  predicate Spaced(a: Account, begin: int, now: int, k: nat, gap: int) {
    k > 0 ==>
      && now >= begin + k * gap - gap
      && (a.lock.Some? ==> a.lock.value >= begin + k * gap)
  }

  lemma StepSpaced(a: Account, threshold: int, seconds: int, t: Attempt, begin: int, now: int, k: nat)
    requires threshold >= 1 && seconds >= 2 && Guarded(a, threshold) && begin <= now <= t.checkAt <= t.failAt
    requires Spaced(a, begin, now, k, 1000 * (seconds - 1))
    ensures Spaced(Attempted(a, threshold, seconds, t).0, begin, t.checkAt, k + (if Unlocks(a, t) then 1 else 0),
                   1000 * (seconds - 1))
  {
    var gap := 1000 * (seconds - 1);
    LockLength(t.failAt, seconds);
    assert (k + 1) * gap == k * gap + gap;
    assert k == 0 ==> k * gap == 0;
  }

  /** Two unlockings are more than the lock length, less one second, apart. */
  lemma {:induction false} UnlockingsApart(a: Account, threshold: int, seconds: int, run: seq<Attempt>)
    requires threshold >= 1 && seconds >= 2 && Guarded(a, threshold) && Timely(run) && run != []
    ensures Spaced(Exec(a, threshold, seconds, run), run[0].checkAt, run[|run| - 1].checkAt,
                   Unlockings(a, threshold, seconds, run), 1000 * (seconds - 1))
  {
    var n := |run| - 1;
    var front := run[..n];
    RunGuarded(a, threshold, seconds, front);
    if front == [] {
      StepSpaced(a, threshold, seconds, run[0], run[0].checkAt, run[0].checkAt, 0);
    } else {
      UnlockingsApart(a, threshold, seconds, front);
      StepSpaced(Exec(a, threshold, seconds, front), threshold, seconds, run[n], run[0].checkAt, run[n - 1].checkAt,
                 Unlockings(a, threshold, seconds, front));
    }
  }

  lemma AtMost(k: nat, gap: nat, length: nat)
    requires gap > 0 && (k - 1) * (1000 * gap) <= 1000 * length
    ensures k <= length / gap + 1
  {
    var d := k - 1 - length / gap;
    assert (k - 1) * (1000 * gap) == 1000 * ((k - 1) * gap);
    assert d * gap == (k - 1) * gap - length / gap * gap;
    assert d >= 1 ==> d * gap >= gap;
  }

  lemma FilledAtMost(threshold: nat, k: nat, most: nat)
    requires k <= most
    ensures threshold + threshold * k <= threshold * (most + 1)
  {
    assert threshold * (most + 1) == threshold + threshold * k + threshold * (most - k);
  }

  /** `length` seconds contain every check of the run. */
  predicate Within(run: seq<Attempt>, length: nat) {
    run != [] ==> run[|run| - 1].checkAt <= run[0].checkAt + 1000 * length
  }

  function Bound(threshold: int, seconds: int, length: nat): int
    requires seconds >= 2
  {
    threshold * (length / (seconds - 1) + 2)
  }

  lemma UnlockingsBounded(a: Account, threshold: int, seconds: int, run: seq<Attempt>, length: nat)
    requires threshold >= 1 && seconds >= 2 && Guarded(a, threshold) && Timely(run) && Within(run, length)
    ensures Unlockings(a, threshold, seconds, run) <= length / (seconds - 1) + 1
  {
    var k, gap := Unlockings(a, threshold, seconds, run), seconds - 1;
    if k > 0 {
      UnlockingsApart(a, threshold, seconds, run);
      assert k * (1000 * gap) - 1000 * gap == (k - 1) * (1000 * gap);
      AtMost(k, gap, length);
    }
  }

  lemma WindowBound(a: Account, threshold: int, seconds: int, run: seq<Attempt>, length: nat)
    requires threshold >= 1 && seconds >= 2 && Guarded(a, threshold) && Timely(run) && Within(run, length)
    requires NoSuccess(a, threshold, seconds, run)
    ensures Evaluations(a, threshold, seconds, run) - Uncounted(a, threshold, seconds, run)
         <= Bound(threshold, seconds, length)
  {
    EvaluationsPerUnlocking(a, threshold, seconds, run);
    RunGuarded(a, threshold, seconds, run);
    UnlockingsBounded(a, threshold, seconds, run, length);
    FilledAtMost(threshold, Unlockings(a, threshold, seconds, run), length / (seconds - 1) + 1);
  }

  /**
   * In the history of an account, take any attempts in a row whose checks fall within `length` seconds and none
   * of which succeeds: at most T * (length / (K - 1) + 2) wrong passwords were compared, for a threshold T and
   * a lock of K seconds.
   */
  lemma WrongPasswordsBounded(threshold: int, seconds: int, history: seq<Attempt>, i: nat, j: nat, length: nat)
    requires threshold >= 1 && seconds >= 2 && Timely(history) && i <= j <= |history|
    requires Within(history[i..j], length)
    requires NoSuccess(Exec(NO_KEYS, threshold, seconds, history[..i]), threshold, seconds, history[i..j])
    ensures var a, window := Exec(NO_KEYS, threshold, seconds, history[..i]), history[i..j];
      Evaluations(a, threshold, seconds, window) - Uncounted(a, threshold, seconds, window)
      <= Bound(threshold, seconds, length)
  {
    RunGuarded(NO_KEYS, threshold, seconds, history[..i]);
    WindowBound(Exec(NO_KEYS, threshold, seconds, history[..i]), threshold, seconds, history[i..j], length);
  }

  // ---------------------------------------------------------------- expired passwords

  /** All attempts that present the right password present it expired, or all present it unexpired. */
  predicate RightIs(run: seq<Attempt>, expired: bool) {
    forall i :: 0 <= i < |run| ==> run[i].right ==> run[i].expired == expired
  }

  lemma {:induction false} NoneUncounted(a: Account, threshold: int, seconds: int, run: seq<Attempt>)
    requires RightIs(run, false)
    ensures Uncounted(a, threshold, seconds, run) == 0
  {
    if run != [] {
      NoneUncounted(a, threshold, seconds, run[..|run| - 1]);
    }
  }

  function Guesses(n: nat): seq<Attempt> {
    seq(n, _ => Attempt(true, true, true, 0, 0))
  }

  lemma GuessAt(a: Account, threshold: int, seconds: int, n: nat, i: nat)
    requires i < n && Exec(a, threshold, seconds, Guesses(i)) == NO_KEYS
    ensures VerdictAt(a, threshold, seconds, Guesses(n), i) == PasswordExpired
  {
    assert Guesses(n)[..i] == Guesses(i);
  }

  lemma {:induction false} GuessesUncounted(threshold: int, seconds: int, n: nat)
    ensures Exec(NO_KEYS, threshold, seconds, Guesses(n)) == NO_KEYS
    ensures NoSuccess(NO_KEYS, threshold, seconds, Guesses(n))
    ensures Evaluations(NO_KEYS, threshold, seconds, Guesses(n)) == n
  {
    if n > 0 {
      GuessesUncounted(threshold, seconds, n - 1);
      assert Guesses(n)[..n - 1] == Guesses(n - 1);
      forall i | 0 <= i < n ensures VerdictAt(NO_KEYS, threshold, seconds, Guesses(n), i) != Verified {
        if i < n - 1 {
          assert Guesses(n)[..i] == Guesses(n - 1)[..i];
          assert VerdictAt(NO_KEYS, threshold, seconds, Guesses(n - 1), i) != Verified;
        } else {
          GuessAt(NO_KEYS, threshold, seconds, n, i);
        }
      }
    }
  }

  /** The bound on the attempts i to j of a history, all of which present the right password expired, or not. */
  predicate WindowBounded(threshold: int, seconds: int, length: nat, expired: bool, history: seq<Attempt>, i: nat,
                          j: nat)
    requires seconds >= 2
  {
    i <= j <= |history| ==>
      var a, window := Exec(NO_KEYS, threshold, seconds, history[..i]), history[i..j];
      Timely(history) && Within(window, length) && RightIs(window, expired) && NoSuccess(a, threshold, seconds, window)
      ==> Evaluations(a, threshold, seconds, window) <= Bound(threshold, seconds, length)
  }

  ghost predicate BoundsAll(threshold: int, seconds: int, length: nat, expired: bool)
    requires seconds >= 2
  {
    forall history, i, j :: WindowBounded(threshold, seconds, length, expired, history, i, j)
  }

  lemma UnexpiredBounded(threshold: int, seconds: int, length: nat, history: seq<Attempt>, i: nat, j: nat)
    requires threshold >= 1 && seconds >= 2
    ensures WindowBounded(threshold, seconds, length, false, history, i, j)
  {
    if i <= j <= |history| {
      var a, window := Exec(NO_KEYS, threshold, seconds, history[..i]), history[i..j];
      if Timely(history) && Within(window, length) && RightIs(window, false)
         && NoSuccess(a, threshold, seconds, window) {
        RunGuarded(NO_KEYS, threshold, seconds, history[..i]);
        WindowBound(a, threshold, seconds, window, length);
        NoneUncounted(a, threshold, seconds, window);
      }
    }
  }

  lemma GuessesFit(n: nat, length: nat)
    ensures Timely(Guesses(n)) && Within(Guesses(n), length) && RightIs(Guesses(n), true)
  {
  }

  lemma GuessesBreak(threshold: int, seconds: int, length: nat, n: nat)
    requires threshold >= 1 && seconds >= 2 && n > Bound(threshold, seconds, length)
    ensures !WindowBounded(threshold, seconds, length, true, Guesses(n), 0, n)
  {
    GuessesUncounted(threshold, seconds, n);
    GuessesFit(n, length);
    assert Guesses(n)[..0] == [] && Guesses(n)[0..n] == Guesses(n);
  }

  lemma ExpiredUnbounded(threshold: int, seconds: int, length: nat)
    requires threshold >= 1 && seconds >= 2
    ensures exists history, n: nat :: !WindowBounded(threshold, seconds, length, true, history, 0, n)
  {
    assert Bound(threshold, seconds, length) >= 0;
    GuessesBreak(threshold, seconds, length, Bound(threshold, seconds, length) + 1);
  }

  /**
   * In any window of any history the bound covers every password evaluation, right or wrong, exactly when the
   * account's password has not expired: guessing an expired password is neither a failure nor a success, so it
   * is never stopped.
   */
  lemma AllEvaluationsBoundedIff(threshold: int, seconds: int, length: nat, expired: bool)
    requires threshold >= 1 && seconds >= 2
    ensures BoundsAll(threshold, seconds, length, expired) <==> !expired
  {
    if expired {
      ExpiredUnbounded(threshold, seconds, length);
    } else {
      forall history, i, j ensures WindowBounded(threshold, seconds, length, expired, history, i, j) {
        UnexpiredBounded(threshold, seconds, length, history, i, j);
      }
    }
  }
}
