/**
 The two sliding-window limiters: failed logins per address (app/auth_router.py, `_check_rate_limit`,
 `_record_failure`, `_clear_attempts`, `login_submit`) and admin mutations per address (app/main.py,
 `AdminPostRateLimitMiddleware.dispatch`). Both keep, per address, the times still inside the window.
 */
module RateLimit {
  import opened Options

  const MAX_ATTEMPTS: nat := 5
  const LOCKOUT_SECONDS: int := 15 * 60
  const MAX_MUTATIONS: nat := 30
  const MUTATION_SECONDS: int := 60

  // ------------------------------------------------------------------
  // Windows
  // ------------------------------------------------------------------

  /** `[t for t in times if now - t < span]` */
  function Recent(times: seq<int>, now: int, span: int): seq<int> {
    if times == [] then []
    else Recent(times[..|times| - 1], now, span)
         + if now - times[|times| - 1] < span then [times[|times| - 1]] else []
  }

  method Prune(times: seq<int>, now: int, span: int) returns (kept: seq<int>)
    ensures kept == Recent(times, now, span)
  {
    kept := [];
    for i := 0 to |times|
      invariant kept == Recent(times[..i], now, span)
    {
      assert times[..i + 1][..i] == times[..i];
      if now - times[i] < span {
        kept := kept + [times[i]];
      }
    }
    assert times[..|times|] == times;
  }

  predicate Sorted(times: seq<int>) {
    forall i, j | 0 <= i <= j < |times| :: times[i] <= times[j]
  }

  /** What is recent in a sorted log is its end. */
  lemma {:induction false} RecentIsSuffix(times: seq<int>, now: int, span: int)
    requires Sorted(times)
    ensures var n := |Recent(times, now, span)|;
            && n <= |times| && Recent(times, now, span) == times[|times| - n..]
            && (forall i | 0 <= i < |times| - n :: now - times[i] >= span)
            && (forall i | |times| - n <= i < |times| :: now - times[i] < span)
  {
    if times != [] {
      var front, last := times[..|times| - 1], times[|times| - 1];
      RecentIsSuffix(front, now, span);
      var m := |Recent(front, now, span)|;
      if now - last < span {
        assert times[|times| - (m + 1)..] == front[|front| - m..] + [last];
      } else {
        assert forall i | 0 <= i < |front| :: now - front[i] >= span;
        assert times[|times|..] == [];
      }
    }
  }

  lemma RecentOfAppend(times: seq<int>, t: int, now: int, span: int)
    ensures Recent(times + [t], now, span) == Recent(times, now, span) + if now - t < span then [t] else []
  {
    assert (times + [t])[..|times|] == times;
  }

  /** Pruning again later is pruning once, later. */
  lemma {:induction false} RecentTwice(times: seq<int>, now: int, later: int, span: int)
    requires now <= later
    ensures Recent(Recent(times, now, span), later, span) == Recent(times, later, span)
  {
    if times != [] {
      var front, last := times[..|times| - 1], times[|times| - 1];
      RecentTwice(front, now, later, span);
      RecentOfAppend(Recent(front, now, span), last, later, span);
      assert now - last >= span ==> Recent(times, now, span) == Recent(front, now, span);
    }
  }

  /** At most `limit` entries of the log lie in any window shorter than `span`. */
  predicate Limited(log: seq<int>, limit: nat, span: int) {
    forall i, j | 0 <= i <= j < |log| && log[j] - log[i] < span :: j - i < limit
  }

  /** An entry made after a check that found fewer than `limit` recent ones keeps the log limited. */
  lemma AppendKeepsLimited(log: seq<int>, checked: int, at: int, limit: nat, span: int)
    requires Sorted(log) && Limited(log, limit, span) && limit > 0
    requires checked <= at && (log != [] ==> log[|log| - 1] <= checked) && |Recent(log, checked, span)| < limit
    ensures Sorted(log + [at]) && Limited(log + [at], limit, span)
  {
    RecentIsSuffix(log, checked, span);
    var n, all := |Recent(log, checked, span)|, log + [at];
    forall i, j | 0 <= i <= j < |all| && all[j] - all[i] < span
      ensures j - i < limit
    {
      if j < |log| {
        assert log[j] - log[i] < span;
      } else if i < |log| {
        assert checked - log[i] < span;
      }
    }
  }

  // ------------------------------------------------------------------
  // Logins from one address
  // ------------------------------------------------------------------

  /** One submitted login: when it was checked, and when a failure was recorded and checked again. */
  datatype Login = Login(checkedAt: int, ok: bool, failedAt: int, recheckedAt: int)

  function Locked(attempts: seq<int>, now: int): bool {
    |Recent(attempts, now, LOCKOUT_SECONDS)| >= MAX_ATTEMPTS
  }

  /** The attempts kept for the address after one login. */
  function AfterLogin(attempts: seq<int>, e: Login): seq<int> {
    var kept := Recent(attempts, e.checkedAt, LOCKOUT_SECONDS);
    if Locked(attempts, e.checkedAt) then kept
    else if e.ok then []
    else Recent(kept + [e.failedAt], e.recheckedAt, LOCKOUT_SECONDS)
  }

  function Attempts(history: seq<Login>): seq<int> {
    if history == [] then [] else AfterLogin(Attempts(history[..|history| - 1]), history[|history| - 1])
  }

  /** Every failure recorded since the last success, kept or not. */
  function Failures(history: seq<Login>): seq<int> {
    if history == [] then []
    else
      var front, e := history[..|history| - 1], history[|history| - 1];
      if Locked(Attempts(front), e.checkedAt) then Failures(front)
      else if e.ok then []
      else Failures(front) + [e.failedAt]
  }

  /** The last time the limiter looked at the clock. */
  function LastTime(history: seq<Login>): int
    requires history != []
  {
    var e := history[|history| - 1];
    if Locked(Attempts(history[..|history| - 1]), e.checkedAt) || e.ok then e.checkedAt else e.recheckedAt
  }

  ghost predicate ClockNeverBack(history: seq<Login>) {
    && (forall k | 0 <= k < |history| :: history[k].checkedAt <= history[k].failedAt <= history[k].recheckedAt)
    && (forall k | 0 < k < |history| :: history[k - 1].recheckedAt <= history[k].checkedAt)
  }

  /** The kept attempts are what was recent, at the last look, in a sorted and limited log. */
  ghost predicate Tracks(attempts: seq<int>, log: seq<int>, looked: int) {
    && Sorted(log) && Limited(log, MAX_ATTEMPTS, LOCKOUT_SECONDS)
    && attempts == Recent(log, looked, LOCKOUT_SECONDS)
    && (log != [] ==> log[|log| - 1] <= looked)
  }

  lemma LookAgain(attempts: seq<int>, log: seq<int>, looked: int, now: int)
    requires Tracks(attempts, log, looked) && looked <= now
    ensures Tracks(Recent(attempts, now, LOCKOUT_SECONDS), log, now)
  {
    RecentTwice(log, looked, now, LOCKOUT_SECONDS);
  }

  lemma FailureIsTracked(attempts: seq<int>, log: seq<int>, e: Login)
    requires Tracks(attempts, log, e.checkedAt) && |attempts| < MAX_ATTEMPTS && e.checkedAt <= e.failedAt <= e.recheckedAt
    ensures Tracks(Recent(attempts + [e.failedAt], e.recheckedAt, LOCKOUT_SECONDS), log + [e.failedAt], e.recheckedAt)
  {
    AppendKeepsLimited(log, e.checkedAt, e.failedAt, MAX_ATTEMPTS, LOCKOUT_SECONDS);
    FailureThenRecheck(log, e);
  }

  /** What is kept is exactly what is recent among all failures since the last success. */
  lemma {:induction false} AttemptsAreRecentFailures(history: seq<Login>)
    requires ClockNeverBack(history)
    ensures Sorted(Failures(history)) && Limited(Failures(history), MAX_ATTEMPTS, LOCKOUT_SECONDS)
    ensures history != [] ==> Tracks(Attempts(history), Failures(history), LastTime(history))
    ensures history != [] ==> LastTime(history) <= history[|history| - 1].recheckedAt
  {
    if history != [] {
      var n := |history| - 1;
      var front, e := history[..n], history[n];
      AttemptsAreRecentFailures(front);
      if front != [] {
        LookAgain(Attempts(front), Failures(front), LastTime(front), e.checkedAt);
      }
      var kept := Recent(Attempts(front), e.checkedAt, LOCKOUT_SECONDS);
      assert Tracks(kept, Failures(front), e.checkedAt);
      if !Locked(Attempts(front), e.checkedAt) && !e.ok {
        FailureIsTracked(kept, Failures(front), e);
      }
    }
  }

  lemma FailureThenRecheck(log: seq<int>, e: Login)
    requires e.checkedAt <= e.recheckedAt
    ensures Recent(Recent(log, e.checkedAt, LOCKOUT_SECONDS) + [e.failedAt], e.recheckedAt, LOCKOUT_SECONDS)
         == Recent(log + [e.failedAt], e.recheckedAt, LOCKOUT_SECONDS)
  {
    RecentOfAppend(log, e.failedAt, e.recheckedAt, LOCKOUT_SECONDS);
    RecentOfAppend(Recent(log, e.checkedAt, LOCKOUT_SECONDS), e.failedAt, e.recheckedAt, LOCKOUT_SECONDS);
    RecentTwice(log, e.checkedAt, e.recheckedAt, LOCKOUT_SECONDS);
  }

  /** No address has more than five recorded failures in any fifteen minutes without a success between. */
  lemma AtMostFiveFailures(history: seq<Login>, i: nat, j: nat)
    requires ClockNeverBack(history) && i <= j < |Failures(history)|
    requires Failures(history)[j] - Failures(history)[i] < 15 * 60
    ensures j - i + 1 <= 5
  {
    AttemptsAreRecentFailures(history);
  }

  /** Never more than five are kept, so a lockout ends exactly when the oldest kept failure is fifteen minutes old. */
  lemma LockoutEnds(history: seq<Login>, now: int)
    requires ClockNeverBack(history) && history != [] && LastTime(history) <= now
    ensures |Attempts(history)| <= 5 && Sorted(Attempts(history))
    ensures Locked(Attempts(history), now) <==> |Attempts(history)| == 5 && now - Attempts(history)[0] < 15 * 60
  {
    AttemptsAreRecentFailures(history);
    FewAreKept(Failures(history), LastTime(history));
    LockedExactly(Attempts(history), now);
  }

  /** In terms of what happened: locked out exactly while the fifth last failure since a success is under fifteen minutes old. */
  lemma LockedOutExactly(history: seq<Login>, now: int)
    requires ClockNeverBack(history) && history != [] && LastTime(history) <= now
    ensures var failures := Failures(history);
            Locked(Attempts(history), now) <==> |failures| >= 5 && now - failures[|failures| - 5] < 15 * 60
  {
    var failures := Failures(history);
    AttemptsAreRecentFailures(history);
    RecentTwice(failures, LastTime(history), now, LOCKOUT_SECONDS);
    RecentIsSuffix(failures, now, LOCKOUT_SECONDS);
  }

  lemma FewAreKept(log: seq<int>, now: int)
    requires Sorted(log) && Limited(log, MAX_ATTEMPTS, LOCKOUT_SECONDS) && (log != [] ==> log[|log| - 1] <= now)
    ensures |Recent(log, now, LOCKOUT_SECONDS)| <= MAX_ATTEMPTS && Sorted(Recent(log, now, LOCKOUT_SECONDS))
  {
    RecentIsSuffix(log, now, LOCKOUT_SECONDS);
    var n := |Recent(log, now, LOCKOUT_SECONDS)|;
    if n > 0 {
      assert log[|log| - 1] - log[|log| - n] < LOCKOUT_SECONDS;
    }
  }

  lemma LockedExactly(kept: seq<int>, now: int)
    requires Sorted(kept) && |kept| <= MAX_ATTEMPTS
    ensures Locked(kept, now) <==> |kept| == MAX_ATTEMPTS && now - kept[0] < LOCKOUT_SECONDS
  {
    RecentIsSuffix(kept, now, LOCKOUT_SECONDS);
  }

  // ------------------------------------------------------------------
  // The stores, for all addresses
  // ------------------------------------------------------------------

  class LoginLimiter {
    var attempts: map<string, seq<int>>

    constructor ()
      ensures attempts == map[]
    {
      attempts := map[];
    }

    function Of(ip: string): seq<int>
      reads this
    {
      if ip in attempts then attempts[ip] else []
    }

    method CheckRateLimit(ip: string, now: int) returns (allowed: bool, remaining: int)
      modifies this
      ensures attempts == old(attempts)[ip := Recent(old(Of(ip)), now, LOCKOUT_SECONDS)]
      ensures allowed <==> ip !in old(attempts) || !Locked(old(attempts)[ip], now)
      ensures !allowed ==> remaining == LOCKOUT_SECONDS - (now - Of(ip)[0])
    {
      var kept := Prune(Of(ip), now, LOCKOUT_SECONDS);
      attempts := attempts[ip := kept];
      allowed, remaining := |kept| < MAX_ATTEMPTS, 0;
      if !allowed {
        remaining := LOCKOUT_SECONDS - (now - kept[0]);
      }
    }

    /** One login: refused outright when locked out, otherwise cleared by success and counted on failure. */
    method Submit(ip: string, e: Login) returns (accepted: bool)
      modifies this
      ensures Of(ip) == AfterLogin(if ip in old(attempts) then old(attempts)[ip] else [], e)
      ensures accepted <==> e.ok && !Locked(old(Of(ip)), e.checkedAt)
      ensures forall other | other != ip :: Of(other) == old(Of(other))
    {
      var allowed, remaining := CheckRateLimit(ip, e.checkedAt);
      if !allowed {
        return false;
      }
      if !e.ok {
        attempts := attempts[ip := Of(ip) + [e.failedAt]];
        allowed, remaining := CheckRateLimit(ip, e.recheckedAt);
        return false;
      }
      attempts := attempts - {ip};
      return true;
    }
  }

  /** The times of the admin mutations accepted so far, checked and recorded at one reading of the clock. */
  function AfterMutation(times: seq<int>, now: int): seq<int> {
    var kept := Recent(times, now, MUTATION_SECONDS);
    if |kept| >= MAX_MUTATIONS then times else kept + [now]
  }

  function Kept(history: seq<int>): seq<int> {
    if history == [] then [] else AfterMutation(Kept(history[..|history| - 1]), history[|history| - 1])
  }

  function Accepted(history: seq<int>): seq<int> {
    if history == [] then []
    else
      var front, now := history[..|history| - 1], history[|history| - 1];
      Accepted(front) + if |Recent(Kept(front), now, MUTATION_SECONDS)| >= MAX_MUTATIONS then [] else [now]
  }

  /** From `now` on, pruning what is kept is pruning the whole log of accepted requests. */
  ghost predicate Stands(kept: seq<int>, log: seq<int>, now: int) {
    && Sorted(log) && Limited(log, MAX_MUTATIONS, MUTATION_SECONDS) && (log != [] ==> log[|log| - 1] <= now)
    && forall later | now <= later :: Recent(kept, later, MUTATION_SECONDS) == Recent(log, later, MUTATION_SECONDS)
  }

  lemma AcceptedStands(kept: seq<int>, log: seq<int>, before: int, now: int)
    requires Stands(kept, log, before) && before <= now && |Recent(kept, now, MUTATION_SECONDS)| < MAX_MUTATIONS
    ensures Stands(Recent(kept, now, MUTATION_SECONDS) + [now], log + [now], now)
  {
    AppendKeepsLimited(log, now, now, MAX_MUTATIONS, MUTATION_SECONDS);
    forall later | now <= later
      ensures Recent(Recent(kept, now, MUTATION_SECONDS) + [now], later, MUTATION_SECONDS) == Recent(log + [now], later, MUTATION_SECONDS)
    {
      RecentTwice(log, now, later, MUTATION_SECONDS);
      RecentOfAppend(Recent(log, now, MUTATION_SECONDS), now, later, MUTATION_SECONDS);
      RecentOfAppend(log, now, later, MUTATION_SECONDS);
    }
  }

  /** Whatever is kept, pruning it from now on is pruning the whole log of accepted requests. */
  lemma {:induction false} KeptIsRecent(history: seq<int>, now: int)
    requires Sorted(history) && (history != [] ==> history[|history| - 1] <= now)
    ensures Stands(Kept(history), Accepted(history), now)
  {
    if history != [] {
      var front, last := history[..|history| - 1], history[|history| - 1];
      KeptIsRecent(front, last);
      if |Recent(Kept(front), last, MUTATION_SECONDS)| < MAX_MUTATIONS {
        AcceptedStands(Kept(front), Accepted(front), last, last);
      } else {
        assert Accepted(history) == Accepted(front) && Kept(history) == Kept(front);
      }
    }
  }

  /** No address gets more than thirty admin mutations accepted in any sixty seconds. */
  lemma AtMostThirtyMutations(history: seq<int>, i: nat, j: nat)
    requires Sorted(history) && i <= j < |Accepted(history)|
    requires Accepted(history)[j] - Accepted(history)[i] < 60
    ensures j - i + 1 <= 30
  {
    if history != [] {
      KeptIsRecent(history, history[|history| - 1]);
    }
  }

  /** And none is refused but the one that would be the thirty-first: the thirtieth last is under sixty seconds old. */
  lemma RefusedExactly(history: seq<int>, now: int)
    requires Sorted(history + [now])
    ensures var accepted := Accepted(history);
            Accepted(history + [now]) == if |accepted| >= 30 && now - accepted[|accepted| - 30] < 60 then accepted else accepted + [now]
  {
    var all := history + [now];
    assert all[..|all| - 1] == history;
    assert forall i, j | 0 <= i <= j < |history| :: history[i] == all[i] && history[j] == all[j];
    assert history != [] ==> all[|history| - 1] <= all[|history|];
    KeptIsRecent(history, now);
    RecentIsSuffix(Accepted(history), now, MUTATION_SECONDS);
  }

  class MutationLimiter {
    var window: map<string, seq<int>>

    constructor ()
      ensures window == map[]
    {
      window := map[];
    }

    function Of(ip: string): seq<int>
      reads this
    {
      if ip in window then window[ip] else []
    }

    /** Whether a mutating admin request passes. */
    method Dispatch(ip: string, now: int) returns (passed: bool)
      modifies this
      ensures Of(ip) == AfterMutation(old(Of(ip)), now)
      ensures passed <==> ip !in old(window) || |Recent(old(window)[ip], now, 60)| < 30
      ensures forall other | other != ip :: Of(other) == old(Of(other))
    {
      var times := Prune(Of(ip), now, MUTATION_SECONDS);
      if |times| >= MAX_MUTATIONS {
        return false;
      }
      window := window[ip := times + [now]];
      return true;
    }
  }
}
