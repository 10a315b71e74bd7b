/**
  The sweep of src/persons/erasure-scheduler.ts: notices first, executions after, each call a
  transaction of its own with whatever commits before it.
 */
module ErasureSchedulers {
  import opened Wrappers
  import opened Erasures
  import opened ErasureHistories
  import opened ErasureServices

  // ---------------------------------------------------------------------------
  // The two selections, ORDER BY effective_after
  // ---------------------------------------------------------------------------

  datatype Sweep = ForNotice | ForExecution

  predicate Wanted(d: Demand, sweep: Sweep, now: int, policy: Policy) {
    && d.status == Status.REQUESTED
    && match sweep
       case ForNotice => d.mode == DELAYED && d.notifiedAt.None? && now >= d.effectiveAfter - policy.leadSeconds
       case ForExecution => now >= d.effectiveAfter
  }

  ghost predicate Within(ids: seq<nat>, demands: seq<Demand>) {
    forall i :: 0 <= i < |ids| ==> ids[i] < |demands|
  }

  function InsertByDate(ids: seq<nat>, k: nat, demands: seq<Demand>): seq<nat>
    requires k < |demands| && Within(ids, demands)
  {
    if ids == [] || demands[ids[|ids| - 1]].effectiveAfter <= demands[k].effectiveAfter then ids + [k]
    else InsertByDate(ids[..|ids| - 1], k, demands) + [ids[|ids| - 1]]
  }

  ghost predicate Distinct(ids: seq<nat>) {
    forall i, j :: 0 <= i < j < |ids| ==> ids[i] != ids[j]
  }

  lemma {:induction false} InsertKeeps(ids: seq<nat>, k: nat, demands: seq<Demand>)
    requires k < |demands| && Within(ids, demands)
    ensures forall x: nat :: x in InsertByDate(ids, k, demands) <==> x in ids || x == k
    ensures Distinct(ids) && k !in ids ==> Distinct(InsertByDate(ids, k, demands))
  {
    if ids == [] || demands[ids[|ids| - 1]].effectiveAfter <= demands[k].effectiveAfter {
    } else {
      var before, last := ids[..|ids| - 1], ids[|ids| - 1];
      assert ids == before + [last];
      InsertKeeps(before, k, demands);
      if Distinct(ids) && k !in ids {
        assert last !in before;
        assert last !in InsertByDate(before, k, demands);
      }
    }
  }

  ghost predicate ByDate(ids: seq<nat>, demands: seq<Demand>) {
    && Within(ids, demands)
    && forall i, j :: 0 <= i < j < |ids| ==> demands[ids[i]].effectiveAfter <= demands[ids[j]].effectiveAfter
  }

  lemma {:induction false} InsertSorts(ids: seq<nat>, k: nat, demands: seq<Demand>)
    requires k < |demands| && ByDate(ids, demands)
    ensures ByDate(InsertByDate(ids, k, demands), demands)
    ensures forall i :: 0 <= i < |InsertByDate(ids, k, demands)| ==> InsertByDate(ids, k, demands)[i] in ids + [k]
  {
    if ids == [] || demands[ids[|ids| - 1]].effectiveAfter <= demands[k].effectiveAfter {
    } else {
      var before, last := ids[..|ids| - 1], ids[|ids| - 1];
      InsertSorts(before, k, demands);
      var r := InsertByDate(before, k, demands);
      forall i | 0 <= i < |r|
        ensures r[i] in ids + [k] && demands[r[i]].effectiveAfter <= demands[last].effectiveAfter
      {
        assert r[i] in before + [k];
        if r[i] != k { var m :| 0 <= m < |before| && before[m] == r[i]; assert ids[m] == r[i]; }
      }
    }
  }

  /** The demands among the first `n` that the sweep wants, by date. */
  function Select(demands: seq<Demand>, n: nat, sweep: Sweep, now: int, policy: Policy): (ids: seq<nat>)
    requires n <= |demands|
    ensures ByDate(ids, demands)
  {
    if n == 0 then []
    else
      var before := Select(demands, n - 1, sweep, now, policy);
      if Wanted(demands[n - 1], sweep, now, policy) then
        (InsertSorts(before, n - 1, demands); InsertByDate(before, n - 1, demands))
      else before
  }

  /** The selection holds each wanted demand once and nothing else. */
  lemma {:induction false} SelectIsExact(demands: seq<Demand>, n: nat, sweep: Sweep, now: int, policy: Policy)
    requires n <= |demands|
    ensures Distinct(Select(demands, n, sweep, now, policy))
    ensures forall k: nat :: k in Select(demands, n, sweep, now, policy) <==> k < n && Wanted(demands[k], sweep, now, policy)
  {
    if n > 0 {
      SelectIsExact(demands, n - 1, sweep, now, policy);
      var before := Select(demands, n - 1, sweep, now, policy);
      if Wanted(demands[n - 1], sweep, now, policy) {
        assert n - 1 !in before;
        InsertKeeps(before, n - 1, demands);
        forall k: nat ensures k in InsertByDate(before, n - 1, demands) <==> k < n && Wanted(demands[k], sweep, now, policy) {
          assert k in before <==> k < n - 1 && Wanted(demands[k], sweep, now, policy);
        }
      }
    }
  }

  /** A sweep selects exactly what its call would act on at that instant: give a notice, or complete or meet the wall. */
  lemma SelectedIffDue(db: Db, k: nat, now: int, draws: Draws, policy: Policy)
    requires k < |db.demands|
    ensures k in Selected(db, ForNotice, now, policy) <==> NoticeTx(db, k, now, policy).1 == Noticed
    ensures k in Selected(db, ForExecution, now, policy) <==>
              EraseTx(db, k, now, draws).1 == Completed || EraseTx(db, k, now, draws).1 == Blocked
  {
    SelectIsExact(db.demands, |db.demands|, ForNotice, now, policy);
    SelectIsExact(db.demands, |db.demands|, ForExecution, now, policy);
  }

  ghost predicate AllWanted(db: Db, ids: seq<nat>, sweep: Sweep, now: int, policy: Policy) {
    Within(ids, db.demands) && forall i :: 0 <= i < |ids| ==> Wanted(db.demands[ids[i]], sweep, now, policy)
  }

  function Selected(db: Db, sweep: Sweep, now: int, policy: Policy): seq<nat> {
    Select(db.demands, |db.demands|, sweep, now, policy)
  }

  // ---------------------------------------------------------------------------
  // The tick
  // ---------------------------------------------------------------------------

  /** What other sessions make of the tables before a call, its clock and draws, and whether it breaks down. */
  datatype Turn = Turn(before: Db -> Db, now: int, draws: Draws, breaks: bool)

  datatype TickReport = TickReport(noticed: nat, executed: nat, blocked: nat, failed: nat)

  /** The first `n` notices of a batch; None when a call broke down, which nothing catches here. */
  function Noticing(db: Db, ids: seq<nat>, n: nat, turns: nat -> Turn, policy: Policy): Option<(Db, nat)>
    requires n <= |ids|
  {
    if n == 0 then Some((db, 0))
    else
      match Noticing(db, ids, n - 1, turns, policy)
      case None => None
      case Some(mid) => NoticeOne(mid, ids[n - 1], turns(n - 1), policy)
  }

  function NoticeOne(mid: (Db, nat), k: nat, turn: Turn, policy: Policy): Option<(Db, nat)> {
    if turn.breaks then None
    else
      var (after, verdict) := NoticeTx(turn.before(mid.0), k, turn.now, policy);
      Some((after, if verdict == Noticed then mid.1 + 1 else mid.1))
  }

  /** The first `n` executions of a batch. */
  function Executing(db: Db, ids: seq<nat>, n: nat, turns: nat -> Turn, policy: Policy, noticed: nat): (Db, TickReport)
    requires n <= |ids|
  {
    if n == 0 then (db, TickReport(noticed, 0, 0, 0))
    else ExecuteNext(Executing(db, ids, n - 1, turns, policy, noticed), ids[n - 1], turns(n - 1))
  }

  /** A wall is not a breakdown, and neither stops the others. */
  function ExecuteNext(mid: (Db, TickReport), k: nat, turn: Turn): (Db, TickReport) {
    var here, report := turn.before(mid.0), mid.1;
    if turn.breaks then (here, report.(failed := report.failed + 1))
    else
      var (after, verdict) := EraseTx(here, k, turn.now, turn.draws);
      match verdict
      case Completed => (after, report.(executed := report.executed + 1))
      case Blocked => (after, report.(blocked := report.blocked + 1))
      case _ => (after, report)
  }

  function NoticeSweep(db: Db, at: int, turns: nat -> Turn, policy: Policy): Option<(Db, nat)> {
    var ids := Selected(db, ForNotice, at, policy);
    Noticing(db, ids, |ids|, turns, policy)
  }

  function ExecutionSweep(db: Db, at: int, turns: nat -> Turn, policy: Policy, noticed: nat): (Db, TickReport) {
    var ids := Selected(db, ForExecution, at, policy);
    Executing(db, ids, |ids|, turns, policy, noticed)
  }

  function Ticked(db: Db, noticesAt: int, noticeTurns: nat -> Turn, dueAt: int, dueTurns: nat -> Turn, policy: Policy)
    : Option<(Db, TickReport)>
  {
    match NoticeSweep(db, noticesAt, noticeTurns, policy)
    case None => None
    case Some((middle, noticed)) => Some(ExecutionSweep(middle, dueAt, dueTurns, policy, noticed))
  }

  /** The notices given before the call that broke down, and nothing after. */
  ghost predicate NoticesStopped(db: Db, ids: seq<nat>, turns: nat -> Turn, after: Db, noticed: nat, policy: Policy) {
    exists n :: 0 <= n < |ids| && turns(n).breaks && Noticing(db, ids, n, turns, policy) == Some((after, noticed))
  }

  class ErasureScheduler {
    const pool: Database
    const policy: Policy

    constructor (pool: Database, policy: Policy)
      ensures this.pool == pool && this.policy == policy
    {
      this.pool, this.policy := pool, policy;
    }

    method Tick(noticesAt: int, noticeTurns: nat -> Turn, dueAt: int, dueTurns: nat -> Turn)
      returns (report: TickReport, threw: bool)
      modifies pool
      ensures
        match Ticked(old(pool.tables), noticesAt, noticeTurns, dueAt, dueTurns, policy)
        case None =>
          threw && NoticesStopped(old(pool.tables), Selected(old(pool.tables), ForNotice, noticesAt, policy), noticeTurns,
                                  pool.tables, report.noticed, policy)
        case Some(end) => !threw && (pool.tables, report) == end
    {
      var noticed, broken := NoticeAll(Selected(pool.tables, ForNotice, noticesAt, policy), noticeTurns);
      if broken { return TickReport(noticed, 0, 0, 0), true; }
      report := ExecuteAll(Selected(pool.tables, ForExecution, dueAt, policy), dueTurns, noticed);
      return report, false;
    }

    method NoticeAll(ids: seq<nat>, turns: nat -> Turn) returns (noticed: nat, broken: bool)
      modifies pool
      ensures
        match Noticing(old(pool.tables), ids, |ids|, turns, policy)
        case None => broken && NoticesStopped(old(pool.tables), ids, turns, pool.tables, noticed, policy)
        case Some(end) => !broken && (pool.tables, noticed) == end
    {
      ghost var before := pool.tables;
      noticed := 0;
      var i := 0;
      while i < |ids|
        invariant 0 <= i <= |ids|
        invariant Noticing(before, ids, i, turns, policy) == Some((pool.tables, noticed))
      {
        if turns(i).breaks {
          BreakdownStops(before, ids, i, turns, pool.tables, noticed);
          return noticed, true;
        }
        noticed := GiveNotice(ids[i], turns(i), noticed);
        i := i + 1;
      }
      return noticed, false;
    }

    /** One notice, counted when it is given. */
    method GiveNotice(k: nat, turn: Turn, before: nat) returns (noticed: nat)
      requires !turn.breaks
      modifies pool
      ensures NoticeOne((old(pool.tables), before), k, turn, policy) == Some((pool.tables, noticed))
    {
      pool.tables := turn.before(pool.tables);
      var (after, verdict) := NoticeTx(pool.tables, k, turn.now, policy);
      pool.tables := after;
      return if verdict == Noticed then before + 1 else before;
    }

    /** A breakdown at call `n` leaves what the calls before it left. */
    lemma BreakdownStops(db: Db, ids: seq<nat>, n: nat, turns: nat -> Turn, after: Db, noticed: nat)
      requires n < |ids| && turns(n).breaks && Noticing(db, ids, n, turns, policy) == Some((after, noticed))
      ensures Noticing(db, ids, |ids|, turns, policy).None? && NoticesStopped(db, ids, turns, after, noticed, policy)
    {
      BrokenStaysBroken(db, ids, n + 1, turns);
    }

    method ExecuteAll(ids: seq<nat>, turns: nat -> Turn, noticed: nat) returns (report: TickReport)
      modifies pool
      ensures (pool.tables, report) == Executing(old(pool.tables), ids, |ids|, turns, policy, noticed)
    {
      report := TickReport(noticed, 0, 0, 0);
      var i := 0;
      while i < |ids|
        invariant 0 <= i <= |ids|
        invariant Executing(old(pool.tables), ids, i, turns, policy, noticed) == (pool.tables, report)
      {
        report := ExecuteOne(ids[i], turns(i), report);
        i := i + 1;
      }
    }

    /** One execution: a wall is not a breakdown, and neither stops the others. */
    method ExecuteOne(k: nat, turn: Turn, before: TickReport) returns (report: TickReport)
      modifies pool
      ensures (pool.tables, report) == ExecuteNext((old(pool.tables), before), k, turn)
    {
      report := before;
      pool.tables := turn.before(pool.tables);
      if turn.breaks { return report.(failed := report.failed + 1); }
      var (after, verdict) := EraseTx(pool.tables, k, turn.now, turn.draws);
      pool.tables := after;
      if verdict == Completed {
        report := report.(executed := report.executed + 1);
      } else if verdict == Blocked {
        report := report.(blocked := report.blocked + 1);
      }
    }

    lemma {:induction false} BrokenStaysBroken(db: Db, ids: seq<nat>, n: nat, turns: nat -> Turn)
      requires n <= |ids| && Noticing(db, ids, n, turns, policy).None?
      ensures Noticing(db, ids, |ids|, turns, policy).None?
      decreases |ids| - n
    {
      if n < |ids| { BrokenStaysBroken(db, ids, n + 1, turns); }
    }
  }

  // ---------------------------------------------------------------------------
  // What any sweep counts
  // ---------------------------------------------------------------------------

  /** How many of the first `n` calls break down. */
  function Broken(turns: nat -> Turn, n: nat): nat {
    if n == 0 then 0 else Broken(turns, n - 1) + if turns(n - 1).breaks then 1 else 0
  }

  /** Whatever commits in between, every breakdown is counted and stops nothing, and no call is counted twice. */
  lemma {:induction false} SweepCountsBreakdowns(db: Db, ids: seq<nat>, n: nat, turns: nat -> Turn, policy: Policy, noticed: nat)
    requires n <= |ids|
    ensures
      var report := Executing(db, ids, n, turns, policy, noticed).1;
      && report.failed == Broken(turns, n) && report.noticed == noticed
      && report.executed + report.blocked + report.failed <= n
  {
    if n > 0 { SweepCountsBreakdowns(db, ids, n - 1, turns, policy, noticed); }
  }

  // ---------------------------------------------------------------------------
  // What a tick that nobody disturbs has done
  // ---------------------------------------------------------------------------

  /** Nothing commits between the calls, none breaks down, and the clock does not go back. */
  ghost predicate Quiet(turns: nat -> Turn, since: int) {
    forall i: nat :: QuietTurn(turns(i), since)
  }

  ghost predicate QuietTurn(turn: Turn, since: int) {
    (forall db :: turn.before(db) == db) && !turn.breaks && turn.now >= since
  }

  /** How many of the first `n` ids are completed. */
  function CompletedAmong(demands: seq<Demand>, ids: seq<nat>, n: nat): nat
    requires n <= |ids| && Within(ids, demands)
  {
    if n == 0 then 0
    else CompletedAmong(demands, ids, n - 1) + if demands[ids[n - 1]].status == COMPLETED then 1 else 0
  }

  lemma {:induction false} CompletedFrame(before: seq<Demand>, after: seq<Demand>, ids: seq<nat>, n: nat)
    requires n <= |ids| && |before| == |after| && Within(ids, before)
    requires forall i :: 0 <= i < n ==> before[ids[i]] == after[ids[i]]
    ensures CompletedAmong(before, ids, n) == CompletedAmong(after, ids, n)
  {
    if n > 0 { CompletedFrame(before, after, ids, n - 1); }
  }

  /** The demands a batch still has to handle are as they were; the others are completed or as they were. */
  ghost predicate BatchState(db: Db, now: Db, ids: seq<nat>, n: nat)
    requires n <= |ids|
  {
    && |now.demands| == |db.demands|
    && (forall k :: 0 <= k < |db.demands| && now.demands[k] != db.demands[k] ==> k in ids[..n])
    && (forall k :: 0 <= k < |db.demands| && now.demands[k] != db.demands[k] ==> now.demands[k].status == COMPLETED)
  }

  /** One execution of an untouched due demand. */
  lemma QuietExecution(db: Db, mid: Db, ids: seq<nat>, n: nat, turn: Turn, policy: Policy)
    requires n < |ids| && Distinct(ids) && Within(ids, db.demands)
    requires Good(mid, policy) && BatchState(db, mid, ids, n)
    requires db.demands[ids[n]].status == Status.REQUESTED && turn.now >= db.demands[ids[n]].effectiveAfter
    ensures
      var (end, verdict) := EraseTx(mid, ids[n], turn.now, turn.draws);
      && Good(end, policy) && BatchState(db, end, ids, n + 1)
      && (forall i :: 0 <= i < n ==> mid.demands[ids[i]] == end.demands[ids[i]])
      && (verdict == Completed || verdict == Blocked)
      && (verdict == Completed <==> end.demands[ids[n]].status == COMPLETED)
  {
    var k := ids[n];
    assert ids[..n + 1] == ids[..n] + [k];
    assert k !in ids[..n];
    EraseKeepsGood(mid, k, turn.now, turn.draws, policy);
  }

  ghost predicate Tallied(db: Db, state: (Db, TickReport), ids: seq<nat>, n: nat, noticed: nat, policy: Policy)
    requires n <= |ids| && Within(ids, db.demands)
  {
    && Good(state.0, policy)
    && BatchState(db, state.0, ids, n)
    && state.1.failed == 0 && state.1.noticed == noticed
    && state.1.executed + state.1.blocked == n
    && state.1.executed == CompletedAmong(state.0.demands, ids, n)
  }

  lemma TallyOne(db: Db, mid: (Db, TickReport), ids: seq<nat>, n: nat, turn: Turn, noticed: nat, policy: Policy)
    requires n < |ids| && Distinct(ids) && Within(ids, db.demands)
    requires Tallied(db, mid, ids, n, noticed, policy)
    requires db.demands[ids[n]].status == Status.REQUESTED && turn.now >= db.demands[ids[n]].effectiveAfter
    requires turn.before(mid.0) == mid.0 && !turn.breaks
    ensures Tallied(db, ExecuteNext(mid, ids[n], turn), ids, n + 1, noticed, policy)
  {
    QuietExecution(db, mid.0, ids, n, turn, policy);
    var end := EraseTx(mid.0, ids[n], turn.now, turn.draws).0;
    CompletedFrame(mid.0.demands, end.demands, ids, n);
  }

  lemma TallyNext(db: Db, mid: (Db, TickReport), ids: seq<nat>, n: nat, turn: Turn, at: int, policy: Policy, noticed: nat)
    requires n < |ids| && QuietTurn(turn, at)
    requires AllWanted(db, ids, ForExecution, at, policy) && Distinct(ids)
    requires Tallied(db, mid, ids, n, noticed, policy)
    ensures Tallied(db, ExecuteNext(mid, ids[n], turn), ids, n + 1, noticed, policy)
  {
    assert turn.before(mid.0) == mid.0;
    assert Wanted(db.demands[ids[n]], ForExecution, at, policy);
    TallyOne(db, mid, ids, n, turn, noticed, policy);
  }

  /** One execution takes `ok` at `i` to `ok` at `i + 1`. */
  ghost predicate Carries(ok: ((Db, TickReport), nat) -> bool, ids: seq<nat>, turns: nat -> Turn, i: nat)
    requires i < |ids|
  {
    forall mid :: ok(mid, i) ==> ok(ExecuteNext(mid, ids[i], turns(i)), i + 1)
  }

  /** What each execution carries on holds after all of them. */
  lemma {:induction false} CarriedThrough(ok: ((Db, TickReport), nat) -> bool, db: Db, ids: seq<nat>, n: nat, turns: nat -> Turn,
                                          policy: Policy, noticed: nat)
    requires n <= |ids| && ok((db, TickReport(noticed, 0, 0, 0)), 0)
    requires forall i :: 0 <= i < n ==> Carries(ok, ids, turns, i)
    ensures ok(Executing(db, ids, n, turns, policy, noticed), n)
  {
    if n > 0 {
      CarriedThrough(ok, db, ids, n - 1, turns, policy, noticed);
      assert Carries(ok, ids, turns, n - 1);
    }
  }

  ghost function TalliedSoFar(db: Db, ids: seq<nat>, noticed: nat, policy: Policy): ((Db, TickReport), nat) -> bool
    requires Within(ids, db.demands)
  {
    (mid: (Db, TickReport), i: nat) => i <= |ids| && Tallied(db, mid, ids, i, noticed, policy)
  }

  lemma ExecutionCarries(db: Db, ids: seq<nat>, turns: nat -> Turn, at: int, policy: Policy, noticed: nat, i: nat)
    requires i < |ids| && QuietTurn(turns(i), at)
    requires AllWanted(db, ids, ForExecution, at, policy) && Distinct(ids)
    ensures Carries(TalliedSoFar(db, ids, noticed, policy), ids, turns, i)
  {
    var ok := TalliedSoFar(db, ids, noticed, policy);
    forall mid | ok(mid, i) ensures ok(ExecuteNext(mid, ids[i], turns(i)), i + 1) {
      TallyNext(db, mid, ids, i, turns(i), at, policy, noticed);
    }
  }

  lemma QuietExecutions(db: Db, ids: seq<nat>, turns: nat -> Turn, at: int, policy: Policy, noticed: nat)
    requires Good(db, policy) && Quiet(turns, at)
    requires AllWanted(db, ids, ForExecution, at, policy) && Distinct(ids)
    ensures Tallied(db, Executing(db, ids, |ids|, turns, policy, noticed), ids, |ids|, noticed, policy)
  {
    var ok := TalliedSoFar(db, ids, noticed, policy);
    forall i | 0 <= i < |ids| ensures Carries(ok, ids, turns, i) {
      assert QuietTurn(turns(i), at);
      ExecutionCarries(db, ids, turns, at, policy, noticed, i);
    }
    CarriedThrough(ok, db, ids, |ids|, turns, policy, noticed);
  }

  ghost predicate NoticeState(db: Db, now: Db, ids: seq<nat>, n: nat)
    requires n <= |ids|
  {
    && |now.demands| == |db.demands| && Within(ids, db.demands)
    && (forall k :: 0 <= k < |db.demands| && now.demands[k] != db.demands[k] ==> k in ids[..n])
    && (forall i :: 0 <= i < n ==> now.demands[ids[i]].notifiedAt.Some?)
  }

  lemma QuietNotice(db: Db, mid: Db, ids: seq<nat>, n: nat, turn: Turn, policy: Policy)
    requires n < |ids| && Distinct(ids)
    requires Good(mid, policy) && NoticeState(db, mid, ids, n)
    requires Wanted(db.demands[ids[n]], ForNotice, turn.now, policy)
    ensures
      var (end, verdict) := NoticeTx(mid, ids[n], turn.now, policy);
      verdict == Noticed && Good(end, policy) && NoticeState(db, end, ids, n + 1)
  {
    var k := ids[n];
    assert ids[..n + 1] == ids[..n] + [k];
    assert k !in ids[..n];
    NoticeKeepsGood(mid, k, turn.now, policy);
  }

  ghost predicate Told(db: Db, state: Option<(Db, nat)>, ids: seq<nat>, n: nat, policy: Policy)
    requires n <= |ids|
  {
    state.Some? && state.value.1 == n && Good(state.value.0, policy) && NoticeState(db, state.value.0, ids, n)
  }

  lemma TellOne(db: Db, mid: Option<(Db, nat)>, ids: seq<nat>, n: nat, turn: Turn, policy: Policy)
    requires n < |ids| && Distinct(ids) && Told(db, mid, ids, n, policy)
    requires Wanted(db.demands[ids[n]], ForNotice, turn.now, policy)
    requires turn.before(mid.value.0) == mid.value.0 && !turn.breaks
    ensures Told(db, NoticeOne(mid.value, ids[n], turn, policy), ids, n + 1, policy)
  {
    QuietNotice(db, mid.value.0, ids, n, turn, policy);
  }

  lemma {:induction false} QuietNotices(db: Db, ids: seq<nat>, n: nat, turns: nat -> Turn, at: int, policy: Policy)
    requires Good(db, policy) && Quiet(turns, at) && n <= |ids|
    requires AllWanted(db, ids, ForNotice, at, policy) && Distinct(ids)
    ensures Told(db, Noticing(db, ids, n, turns, policy), ids, n, policy)
  {
    if n > 0 {
      QuietNotices(db, ids, n - 1, turns, at, policy);
      var mid := Noticing(db, ids, n - 1, turns, policy);
      var turn := turns(n - 1);
      assert turn.before(mid.value.0) == mid.value.0 && !turn.breaks;
      assert Wanted(db.demands[ids[n - 1]], ForNotice, at, policy);
      TellOne(db, mid, ids, n - 1, turn, policy);
    }
  }

  lemma SelectedAreDistinct(db: Db, sweep: Sweep, now: int, policy: Policy)
    ensures
      var ids := Selected(db, sweep, now, policy);
      && AllWanted(db, ids, sweep, now, policy)
      && Distinct(ids)
      && (forall k: nat :: k < |db.demands| && Wanted(db.demands[k], sweep, now, policy) ==> k in ids)
  {
    var ids := Selected(db, sweep, now, policy);
    SelectIsExact(db.demands, |db.demands|, sweep, now, policy);
    forall i | 0 <= i < |ids| ensures Wanted(db.demands[ids[i]], sweep, now, policy) {
      assert ids[i] in ids;
    }
  }

  /** Everyone whose notice is due is told. */
  ghost predicate AllTold(db: Db, at: int, sweep: Option<(Db, nat)>, policy: Policy) {
    var ids := Selected(db, ForNotice, at, policy);
    Told(db, sweep, ids, |ids|, policy)
  }

  /** Every due demand is completed and counted as executed, or as it was and counted as blocked. */
  ghost predicate AllDecided(db: Db, at: int, end: (Db, TickReport), noticed: nat, policy: Policy) {
    var ids := Selected(db, ForExecution, at, policy);
    Within(ids, db.demands) && Tallied(db, end, ids, |ids|, noticed, policy)
  }

  lemma QuietNoticeSweep(db: Db, at: int, turns: nat -> Turn, policy: Policy)
    requires Good(db, policy) && Quiet(turns, at)
    ensures AllTold(db, at, NoticeSweep(db, at, turns, policy), policy)
  {
    var ids := Selected(db, ForNotice, at, policy);
    SelectedAreDistinct(db, ForNotice, at, policy);
    QuietNotices(db, ids, |ids|, turns, at, policy);
  }

  lemma QuietExecutionSweep(db: Db, at: int, turns: nat -> Turn, policy: Policy, noticed: nat)
    requires Good(db, policy) && Quiet(turns, at)
    ensures AllDecided(db, at, ExecutionSweep(db, at, turns, policy, noticed), noticed, policy)
  {
    var ids := Selected(db, ForExecution, at, policy);
    SelectedAreDistinct(db, ForExecution, at, policy);
    QuietExecutions(db, ids, turns, at, policy, noticed);
  }

  /**
    A tick that nobody disturbs runs both sweeps to their end (the first has told everyone, see
    QuietNoticeSweep), and its report is the truth about every demand that was due.
   */
  lemma QuietTick(db: Db, noticesAt: int, noticeTurns: nat -> Turn, dueAt: int, dueTurns: nat -> Turn, policy: Policy)
    returns (middle: Db, noticed: nat, end: (Db, TickReport))
    requires Good(db, policy) && Quiet(noticeTurns, noticesAt) && Quiet(dueTurns, dueAt)
    ensures NoticeSweep(db, noticesAt, noticeTurns, policy) == Some((middle, noticed))
    ensures Ticked(db, noticesAt, noticeTurns, dueAt, dueTurns, policy) == Some(end)
    ensures AllDecided(middle, dueAt, end, noticed, policy)
  {
    var told := NoticeSweep(db, noticesAt, noticeTurns, policy);
    assert told.Some? && Good(told.value.0, policy) by {
      QuietNoticeSweep(db, noticesAt, noticeTurns, policy);
    }
    middle, noticed := told.value.0, told.value.1;
    end := ExecutionSweep(middle, dueAt, dueTurns, policy, noticed);
    QuietExecutionSweep(middle, dueAt, dueTurns, policy, noticed);
  }
}
