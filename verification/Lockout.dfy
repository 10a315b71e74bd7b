/**
  Password login and its progressive lock (src/auth/auth.service.ts), over the secret row and
  the guard of db/schema/003_account_secrets.sql.

  Whether a submitted secret matches a hash is a parameter; opening the session that follows a
  success is the subject of Sessions.
 */
module Lockouts {
  import opened Arithmetic
  import opened Wrappers
  import opened LoginThrottles

  datatype RawConfig = RawConfig(lockThreshold: int, lockBaseSeconds: int, lockCapSeconds: int)

  /** Strictly positive integers, or the service does not boot. */
  type Config = c: RawConfig | c.lockThreshold > 0 && c.lockBaseSeconds > 0 && c.lockCapSeconds > 0
    witness RawConfig(1, 1, 1)

  datatype Secret = Secret(failedAttempts: nat, lockedUntil: Option<int>, temporary: bool)

  /** Whether the view that alone shows a hash shows this one. */
  predicate Authenticable(s: Secret, now: int) {
    s.lockedUntil.None? || s.lockedUntil.value <= now
  }

  /** base × 2^extra, capped. */
  function Backoff(extra: nat, cfg: Config): int { Doubling(cfg.lockBaseSeconds, cfg.lockCapSeconds, extra) }

  /** `UPDATE … SET locked_until`, or None when the guard refuses a future lock that recedes. */
  function SetLock(s: Secret, until: int, now: int): Option<Secret> {
    if s.lockedUntil.Some? && s.lockedUntil.value != until && s.lockedUntil.value > now && until <= s.lockedUntil.value
    then None
    else Some(s.(lockedUntil := Some(until)))
  }

  /** The second statement of a registered failure; a refusal by the guard is swallowed. */
  function LockFor(s: Secret, failures: nat, now: int, cfg: Config): Secret {
    if failures < cfg.lockThreshold then s
    else
      match SetLock(s, now + Backoff(failures - cfg.lockThreshold, cfg), now)
      case Some(s') => s'
      case None => s
  }

  function CountFailure(s: Secret): Secret { s.(failedAttempts := s.failedAttempts + 1) }

  datatype Outcome = Throttled | Failed | LoggedIn(mustChangeSecret: bool)

  /** The instants one login reads: both counters, the lookup, the lock's UPDATE. */
  datatype Clock = Clock(ipMs: int, idMs: int, lookupAt: int, lockAt: int)

  class AuthService {
    const cfg: Config
    const throttle: LoginThrottle
    /** Active accounts by public identifier, with their one ACTIVE unexpired secret. */
    var secrets: map<string, Secret>
    /** argon2 verifications performed. */
    var verifications: nat

    constructor (cfg: Config, throttle: LoginThrottle, secrets: map<string, Secret>)
      ensures this.cfg == cfg && this.throttle == throttle && this.secrets == secrets && verifications == 0
    {
      this.cfg, this.throttle, this.secrets, verifications := cfg, throttle, secrets, 0;
    }

    /** `matches` says whether the submitted secret fits the account's real hash. */
    method Login(identifier: string, matches: bool, clientIp: string, at: Clock) returns (out: Outcome)
      modifies `secrets, `verifications, throttle`counters
      ensures
        var (counters, admitted) := Answer(old(throttle.counters), Call.Allow(clientIp, identifier, at.ipMs, at.idMs), throttle.Lim());
        throttle.counters == counters && (out == Throttled <==> !admitted)
      // every path costs one verification, and only a throttled request none
      ensures verifications == old(verifications) + if out == Throttled then 0 else 1
      ensures
        var readable := identifier in old(secrets) && Authenticable(old(secrets)[identifier], at.lookupAt);
        && (out.LoggedIn? <==> out != Throttled && readable && matches)
        && (out.LoggedIn? ==> out.mustChangeSecret == old(secrets)[identifier].temporary)
        && secrets ==
           if out == Throttled || !readable then old(secrets)
           else
             var s := old(secrets)[identifier];
             old(secrets)[identifier :=
               if matches then s.(failedAttempts := 0)
               else LockFor(CountFailure(s), s.failedAttempts + 1, at.lockAt, cfg)]
    {
      var admitted := throttle.Allow(clientIp, identifier, at.ipMs, at.idMs);
      if !admitted { return Throttled; }
      if identifier !in secrets || !Authenticable(secrets[identifier], at.lookupAt) {
        // against the reference hash: same cost, same answer
        VerifySecret();
        return Failed;
      }
      VerifySecret();
      if !matches {
        RegisterFailure(identifier, at.lockAt);
        return Failed;
      }
      var s := secrets[identifier];
      secrets := secrets[identifier := s.(failedAttempts := 0)];
      return LoggedIn(s.temporary);
    }

    /** One argon2 verification; what it finds is a parameter of the login. */
    method VerifySecret()
      modifies `verifications
      ensures verifications == old(verifications) + 1
    {
      verifications := verifications + 1;
    }

    method RegisterFailure(identifier: string, lockAt: int)
      requires identifier in secrets
      modifies `secrets
      ensures
        var s := old(secrets)[identifier];
        secrets == old(secrets)[identifier := LockFor(CountFailure(s), s.failedAttempts + 1, lockAt, cfg)]
    {
      secrets := secrets[identifier := CountFailure(secrets[identifier])];
      var failures := secrets[identifier].failedAttempts;
      if failures < cfg.lockThreshold { return; }
      var exponent := failures - cfg.lockThreshold;
      var backoffSeconds := Min(cfg.lockBaseSeconds * Pow2(exponent), cfg.lockCapSeconds);
      var locked := SetLock(secrets[identifier], lockAt + backoffSeconds, lockAt);
      if locked.Some? { secrets := secrets[identifier := locked.value]; }
    }
  }

  // ---------------------------------------------------------------------------
  // A sequential run of failures against the real hash
  // ---------------------------------------------------------------------------

  /** One failed login: when the view was read, and when its lock was written. */
  datatype Failure = Failure(lookupAt: int, lockAt: int)

  function AfterFailures(s: Secret, fs: seq<Failure>, cfg: Config): Secret {
    if fs == [] then s
    else
      var before := AfterFailures(s, fs[..|fs| - 1], cfg);
      LockFor(CountFailure(before), before.failedAttempts + 1, fs[|fs| - 1].lockAt, cfg)
  }

  /** Each attempt starts after the previous one ended, and finds the real hash readable. */
  ghost predicate Sequential(s: Secret, fs: seq<Failure>, cfg: Config) {
    fs == [] ||
    var n := |fs| - 1;
    && Sequential(s, fs[..n], cfg)
    && (n > 0 ==> fs[n - 1].lockAt <= fs[n].lookupAt)
    && fs[n].lookupAt <= fs[n].lockAt
    && Authenticable(AfterFailures(s, fs[..n], cfg), fs[n].lookupAt)
  }

  /** min(base · 2^j, cap) */
  function Wait(j: nat, cfg: Config): int { Min(cfg.lockBaseSeconds * Pow2(j), cfg.lockCapSeconds) }

  /** Σ min(base · 2^j, cap) for j < k. */
  function Waits(k: nat, cfg: Config): int {
    if k == 0 then 0 else Waits(k - 1, cfg) + Wait(k - 1, cfg)
  }

  /** The lock starts at the base, doubles with each failure up to the cap, and is what the sums above add. */
  lemma BackoffIsWait(extra: nat, cfg: Config)
    ensures Backoff(extra, cfg) == Wait(extra, cfg)
    ensures Backoff(0, cfg) == Min(cfg.lockBaseSeconds, cfg.lockCapSeconds)
    ensures Backoff(extra + 1, cfg) == Min(2 * Backoff(extra, cfg), cfg.lockCapSeconds)
    ensures 0 < Backoff(extra, cfg) <= cfg.lockCapSeconds
  {
    DoublesToTheCap(cfg.lockBaseSeconds, cfg.lockCapSeconds, extra);
  }

  /** A readable secret takes the lock it is given: the guard has nothing to refuse. */
  lemma LockIsTaken(s: Secret, f: Failure, cfg: Config)
    requires Authenticable(s, f.lookupAt) && f.lookupAt <= f.lockAt
    ensures
      var after := LockFor(CountFailure(s), s.failedAttempts + 1, f.lockAt, cfg);
      && after.failedAttempts == s.failedAttempts + 1
      && (s.failedAttempts + 1 >= cfg.lockThreshold ==>
            after.lockedUntil == Some(f.lockAt + Wait(s.failedAttempts + 1 - cfg.lockThreshold, cfg)))
      && (s.failedAttempts + 1 < cfg.lockThreshold ==> after.lockedUntil == s.lockedUntil)
  {
    if s.failedAttempts + 1 >= cfg.lockThreshold { BackoffIsWait(s.failedAttempts + 1 - cfg.lockThreshold, cfg); }
  }

  /**
    After n failures in a row the counter is n.  Below the threshold no lock is set; from the
    threshold T on, the secret is hidden until min(base · 2^(n-T), cap) after the n-th failure, and no longer.
   */
  lemma {:induction false} LockAfterFailures(s: Secret, fs: seq<Failure>, cfg: Config)
    requires s.failedAttempts == 0 && Sequential(s, fs, cfg)
    ensures AfterFailures(s, fs, cfg).failedAttempts == |fs|
    ensures |fs| < cfg.lockThreshold ==> AfterFailures(s, fs, cfg).lockedUntil == s.lockedUntil
    ensures |fs| >= cfg.lockThreshold ==>
              AfterFailures(s, fs, cfg).lockedUntil ==
              Some(fs[|fs| - 1].lockAt + Min(cfg.lockBaseSeconds * Pow2(|fs| - cfg.lockThreshold), cfg.lockCapSeconds))
    ensures |fs| >= cfg.lockThreshold ==>
              forall t :: Authenticable(AfterFailures(s, fs, cfg), t) <==>
                          t >= fs[|fs| - 1].lockAt
                               + Min(cfg.lockBaseSeconds * Pow2(|fs| - cfg.lockThreshold), cfg.lockCapSeconds)
  {
    if fs != [] {
      var n := |fs| - 1;
      LockAfterFailures(s, fs[..n], cfg);
      LockIsTaken(AfterFailures(s, fs[..n], cfg), fs[n], cfg);
    }
  }

  /**
    With threshold T, the n-th failure against the real hash (n > T) cannot start before the
    T-th one's lock has been served, and each longer one after it:
    Σ_{j < n-T} min(base · 2^j, cap) seconds later at the least.
   */
  lemma {:induction false} FailuresAreSpacedOut(s: Secret, fs: seq<Failure>, cfg: Config)
    requires s.failedAttempts == 0 && Sequential(s, fs, cfg)
    requires |fs| > cfg.lockThreshold
    ensures fs[|fs| - 1].lookupAt >= fs[cfg.lockThreshold - 1].lockAt + Waits(|fs| - cfg.lockThreshold, cfg)
    decreases |fs|
  {
    var n, t := |fs| - 1, cfg.lockThreshold;
    LockAfterFailures(s, fs[..n], cfg);
    if n > t {
      FailuresAreSpacedOut(s, fs[..n], cfg);
    }
  }

  /** Once the cap is reached, every further failure costs the whole cap. */
  lemma BoundIsLinearOnceCapped(k: nat, j: nat, cfg: Config)
    requires Wait(j, cfg) == cfg.lockCapSeconds
    ensures Waits(j + k, cfg) == Waits(j, cfg) + k * cfg.lockCapSeconds
  {
    if k > 0 {
      BoundIsLinearOnceCapped(k - 1, j, cfg);
      WaitGrows(j, j + k - 1, cfg);
    }
  }

  lemma WaitGrows(i: nat, j: nat, cfg: Config)
    requires i <= j
    ensures Wait(i, cfg) <= Wait(j, cfg) <= cfg.lockCapSeconds
  {
    if i < j {
      WaitGrows(i, j - 1, cfg);
      DoublesToTheCap(cfg.lockBaseSeconds, cfg.lockCapSeconds, j - 1);
    }
  }

  // ---------------------------------------------------------------------------
  // Concurrent logins
  // ---------------------------------------------------------------------------

  /** The statements concurrent logins send, in the order the database runs them. */
  datatype Event =
    | Looked(now: int)
    | Counted(now: int)
    | LockTried(now: int, failures: nat)
    | Succeeded(now: int)

  function OnEvent(s: Secret, e: Event, cfg: Config): Secret {
    match e
    case Looked(_) => s
    case Counted(_) => CountFailure(s)
    case LockTried(now, failures) => LockFor(s, failures, now, cfg)
    case Succeeded(_) => s.(failedAttempts := 0)
  }

  function AfterEvents(s: Secret, es: seq<Event>, cfg: Config): Secret {
    if es == [] then s else OnEvent(AfterEvents(s, es[..|es| - 1], cfg), es[|es| - 1], cfg)
  }

  /** A lock that is still in the future never recedes, whatever the interleaving. */
  lemma {:induction false} FutureLockNeverRecedes(s: Secret, es: seq<Event>, term: int, cfg: Config)
    requires s.lockedUntil.Some? && s.lockedUntil.value >= term
    requires forall e <- es :: e.now < term
    ensures AfterEvents(s, es, cfg).lockedUntil.Some? && AfterEvents(s, es, cfg).lockedUntil.value >= term
    ensures forall now :: now < term ==> !Authenticable(AfterEvents(s, es, cfg), now)
  {
    if es != [] {
      forall e <- es[..|es| - 1] ensures e in es {}
      assert es[|es| - 1] in es;
      FutureLockNeverRecedes(s, es[..|es| - 1], term, cfg);
    }
  }

  /**
    Each failure past the threshold is honoured: written or refused, its lock leaves the secret
    unreadable until at least its own term, over whatever concurrent logins do meanwhile.
   */
  lemma EveryFailureIsHonoured(s: Secret, now: int, failures: nat, later: seq<Event>, cfg: Config)
    requires failures >= cfg.lockThreshold
    requires forall e <- later :: e.now < now + Wait(failures - cfg.lockThreshold, cfg)
    ensures
      var locked := AfterEvents(OnEvent(s, LockTried(now, failures), cfg), later, cfg);
      forall t :: t < now + Wait(failures - cfg.lockThreshold, cfg) ==> !Authenticable(locked, t)
  {
    BackoffIsWait(failures - cfg.lockThreshold, cfg);
    FutureLockNeverRecedes(OnEvent(s, LockTried(now, failures), cfg), later,
                           now + Wait(failures - cfg.lockThreshold, cfg), cfg);
  }
}
