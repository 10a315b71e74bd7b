/**
  The outbox publisher (src/outbox/publisher.ts) over the queue functions of
  db/schema/018_claims_to_person.sql and 009_outbox_retry.sql: claim a leased batch, send
  outside any transaction, write the verdict.
 */
module Outboxes {
  import opened Arithmetic
  import opened Wrappers

  datatype RawConfig = RawConfig(leaseSeconds: int, maxAttempts: int, backoffBaseSeconds: int, backoffCapSeconds: int)

  /** Strictly positive integers, or the worker does not boot. */
  type Config = c: RawConfig |
    c.leaseSeconds > 0 && c.maxAttempts > 0 && c.backoffBaseSeconds > 0 && c.backoffCapSeconds > 0
    witness RawConfig(1, 1, 1, 1)

  datatype Status = PENDING | PUBLISHED | FAILED

  datatype Row = Row(
    eventType: string,
    person: nat,
    claim: Option<nat>,
    status: Status,
    attempts: nat,
    nextAttemptAt: int,
    lastErrorCode: Option<string>)

  /** The queue, and the notification each event left in an account (one per event at most). */
  datatype Store = Store(rows: map<nat, Row>, notifications: map<nat, nat>)

  // ---------------------------------------------------------------------------
  // The database's functions
  // ---------------------------------------------------------------------------

  predicate Due(r: Row, now: int) { r.status == PENDING && r.nextAttemptAt <= now }

  predicate IsPending(st: Store, id: nat) { id in st.rows && st.rows[id].status == PENDING }

  /** claim_outbox_batch, for one row of the batch it returns. */
  function ClaimRow(st: Store, id: nat, now: int, cfg: Config): Store
    requires id in st.rows && Due(st.rows[id], now)
  {
    st.(rows := st.rows[id := st.rows[id].(nextAttemptAt := now + cfg.leaseSeconds)])
  }

  datatype PublishVerdict = Published | PublishAlreadySettled | NoAccount

  /** publish_outbox_event; `holder` is the person's active account, if any. */
  function Publish(st: Store, id: nat, notifyAccount: bool, holder: Option<nat>): (Store, PublishVerdict) {
    if !IsPending(st, id) then (st, PublishAlreadySettled)
    else if notifyAccount && holder.None? then (st, NoAccount)
    else
      var notes :=
        if notifyAccount && id !in st.notifications then st.notifications[id := holder.value] else st.notifications;
      (Store(st.rows[id := st.rows[id].(status := PUBLISHED)], notes), Published)
  }

  datatype FailVerdict = Retry | Dead | FailAlreadySettled

  /** fail_outbox_attempt. */
  function Fail(st: Store, id: nat, code: string, maxAttempts: int, backoff: int, now: int): (Store, FailVerdict) {
    if !IsPending(st, id) then (st, FailAlreadySettled)
    else
      var r := st.rows[id];
      var counted := r.(attempts := r.attempts + 1, lastErrorCode := Some(code), nextAttemptAt := now + backoff);
      if r.attempts + 1 >= maxAttempts then (st.(rows := st.rows[id := counted.(status := FAILED)]), Dead)
      else (st.(rows := st.rows[id := counted]), Retry)
  }

  // ---------------------------------------------------------------------------
  // The publisher
  // ---------------------------------------------------------------------------

  datatype Policy = Policy(allowedChannels: seq<string>, inAccount: bool)

  /** No policy row means no sending: the default is silence. */
  const SILENCE := Policy([], false)

  datatype Target = Target(address: string, channel: string)

  function PickChannel(policy: Policy, address: Option<string>): Option<Target> {
    if address.None? || policy.allowedChannels == [] then None
    else Some(Target(address.value, policy.allowedChannels[0]))
  }

  function Backoff(attempts: nat, cfg: Config): int {
    Doubling(cfg.backoffBaseSeconds, cfg.backoffCapSeconds, attempts)
  }

  datatype SendResult = Accepted | OutboundFailed | Crashed

  /**
    An error that stops a drain: from the policy lookup, the address reads, or the n-th outbox
    statement of the turn, which the database may or may not have applied.
   */
  datatype Fault = AtPolicy | AtAddress | AtStatement(n: nat, applied: bool)

  /** What the world answers while one event of the batch is handled. */
  datatype Turn = Turn(
    policy: Policy,
    address: Option<string>,
    holder: Option<nat>,
    send: SendResult,
    failAt: int,
    fault: Option<Fault>)

  /** Whether the n-th statement fails, and then whether it was applied. */
  function FaultAt(turn: Turn, n: nat): Option<bool> {
    match turn.fault
    case Some(AtStatement(m, applied)) => if m == n then Some(applied) else None
    case _ => None
  }

  predicate FailsEarly(turn: Turn) { turn.fault == Some(AtPolicy) || turn.fault == Some(AtAddress) }

  datatype Report = Report(claimed: nat, published: nat, retried: nat, failed: nat, notNotifiable: nat)

  /** The counter an event is entered under. */
  datatype Counter = AsPublished | AsRetried | AsFailed

  function FailAndCount(st: Store, id: nat, attempts: nat, code: string, now: int, cfg: Config): (Store, Counter) {
    var (st', verdict) := Fail(st, id, code, cfg.maxAttempts, Backoff(attempts, cfg), now);
    (st', if verdict == Dead then AsFailed else AsRetried)
  }

  /** How the handling of an event ends: counted, or stopped by an error that escapes. */
  datatype Handling = Done(store: Store, count: Counter, silent: bool) | Threw(store: Store)

  function Applied(fault: Option<bool>, before: Store, after: Store): Store {
    if fault == Some(false) then before else after
  }

  function FailHandled(st: Store, id: nat, attempts: nat, silent: bool, turn: Turn, n: nat, cfg: Config): Handling {
    var code := if silent then "NOT_NOTIFIABLE" else "DISPATCH_FAILED";
    var (st1, count) := FailAndCount(st, id, attempts, code, turn.failAt, cfg);
    if FaultAt(turn, n).Some? then Threw(Applied(FaultAt(turn, n), st, st1)) else Done(st1, count, silent)
  }

  /** One event, handled on `st`; `attempts` is what the batch said of it. */
  function Handled(st: Store, id: nat, attempts: nat, turn: Turn, cfg: Config): Handling {
    if FailsEarly(turn) then Threw(st)
    else if PickChannel(turn.policy, turn.address).None? then
      if turn.policy.inAccount then
        var (st1, deposit) := Publish(st, id, true, turn.holder);
        if FaultAt(turn, 0).Some? then Threw(Applied(FaultAt(turn, 0), st, st1))
        else if deposit != NoAccount then Done(st1, AsPublished, false)
        else FailHandled(st1, id, attempts, true, turn, 1, cfg)
      else FailHandled(st, id, attempts, true, turn, 0, cfg)
    else
      match turn.send
      case Crashed => Threw(st)
      case OutboundFailed => FailHandled(st, id, attempts, false, turn, 0, cfg)
      case Accepted =>
        var (st1, verdict) := Publish(st, id, turn.policy.inAccount, turn.holder);
        if FaultAt(turn, 0).Some? then Threw(Applied(FaultAt(turn, 0), st, st1))
        else if verdict != NoAccount then Done(st1, AsPublished, false)
        else
          var st2 := Publish(st1, id, false, turn.holder).0;
          if FaultAt(turn, 1).Some? then Threw(Applied(FaultAt(turn, 1), st1, st2)) else Done(st2, AsPublished, false)
  }

  function Enter(r: Report, count: Counter, silent: bool): Report {
    var r1 := match count
      case AsPublished => r.(published := r.published + 1)
      case AsRetried => r.(retried := r.retried + 1)
      case AsFailed => r.(failed := r.failed + 1);
    if silent then r1.(notNotifiable := r1.notNotifiable + 1) else r1
  }

  datatype Claimed = Claimed(id: nat, attempts: nat)

  /** A drain that went through its batch, or that an error stopped at its event `at`. */
  datatype DrainEnd = Finished(store: Store, report: Report) | StoppedAt(at: nat, store: Store)

  /** The whole batch, in order. */
  function Drained(st: Store, batch: seq<Claimed>, turns: seq<Turn>, cfg: Config): (r: DrainEnd)
    requires |turns| == |batch|
    ensures r.StoppedAt? ==> r.at < |batch|
  {
    if batch == [] then Finished(st, Report(0, 0, 0, 0, 0))
    else
      var n := |batch| - 1;
      match Drained(st, batch[..n], turns[..n], cfg)
      case StoppedAt(at, st1) => StoppedAt(at, st1)
      case Finished(st1, report) =>
        match Handled(st1, batch[n].id, batch[n].attempts, turns[n], cfg)
        case Threw(st2) => StoppedAt(n, st2)
        case Done(st2, count, silent) => Finished(st2, Enter(report.(claimed := report.claimed + 1), count, silent))
  }

  /** What the dispatcher is handed for one event. */
  function HandedFor(event: Claimed, turn: Turn): seq<(nat, Target)> {
    var target := PickChannel(turn.policy, turn.address);
    if !FailsEarly(turn) && target.Some? then [(event.id, target.value)] else []
  }

  /** What the dispatcher is handed for a batch. */
  function Handed(batch: seq<Claimed>, turns: seq<Turn>): seq<(nat, Target)>
    requires |turns| == |batch|
  {
    if batch == [] then []
    else
      var n := |batch| - 1;
      Handed(batch[..n], turns[..n]) + HandedFor(batch[n], turns[n])
  }

  function LeaseAll(st: Store, batch: seq<Claimed>, now: int, cfg: Config): Store {
    st.(rows := map id <- st.rows ::
      if exists c <- batch :: c.id == id then st.rows[id].(nextAttemptAt := now + cfg.leaseSeconds) else st.rows[id])
  }

  /** What a drain leaves, reports and hands over: everything, or what came before the error that stopped it. */
  ghost predicate Ends(st: Store, batch: seq<Claimed>, turns: seq<Turn>, sent: seq<(nat, Target)>,
                       end: Store, report: Report, outbound: seq<(nat, Target)>, thrown: bool, cfg: Config)
    requires |turns| == |batch|
  {
    match Drained(st, batch, turns, cfg)
    case Finished(st', report') => !thrown && (end, report) == (st', report') && outbound == sent + Handed(batch, turns)
    case StoppedAt(at, st') => thrown && end == st' && outbound == sent + Handed(batch[..at + 1], turns[..at + 1])
  }

  class OutboxPublisher {
    const cfg: Config
    var store: Store
    /** What the dispatcher was handed, in order. */
    var outbound: seq<(nat, Target)>

    constructor (cfg: Config, store: Store)
      ensures this.cfg == cfg && this.store == store && outbound == []
    {
      this.cfg, this.store, outbound := cfg, store, [];
    }

    /** One drain over the rows `batch` that claim_outbox_batch returned. */
    method Drain(batch: seq<Claimed>, now: int, turns: seq<Turn>) returns (report: Report, thrown: bool)
      requires |turns| == |batch|
      requires forall c <- batch ::
                 c.id in store.rows && Due(store.rows[c.id], now) && c.attempts == store.rows[c.id].attempts
      modifies `store, `outbound
      ensures report.claimed == |batch|
      ensures Ends(LeaseAll(old(store), batch, now, cfg), batch, turns, old(outbound), store, report, outbound, thrown, cfg)
    {
      ClaimBatch(batch, now);
      report, thrown := HandleBatch(batch, turns);
    }

    method HandleBatch(batch: seq<Claimed>, turns: seq<Turn>) returns (report: Report, thrown: bool)
      requires |turns| == |batch|
      modifies `store, `outbound
      ensures report.claimed == |batch|
      ensures Ends(old(store), batch, turns, old(outbound), store, report, outbound, thrown, cfg)
    {
      report := Report(|batch|, 0, 0, 0, 0);
      var i := 0;
      while i < |batch|
        invariant report.claimed == |batch|
        invariant Midway(old(store), batch, turns, i, store, report, old(outbound), outbound)
      {
        MidwayNext(old(store), batch, turns, i, store, report, old(outbound), outbound);
        var count, silent, stopped := HandleEvent(batch[i], turns[i]);
        if stopped {
          StaysStopped(old(store), batch, turns, i + 1);
          return report, true;
        }
        report := Enter(report, count, silent);
        i := i + 1;
      }
      assert batch[..i] == batch && turns[..i] == turns;
      return report, false;
    }

    /** `i` events are handled: the report counts them, the dispatcher was handed theirs. */
    ghost predicate Midway(st: Store, batch: seq<Claimed>, turns: seq<Turn>, i: int, now: Store, report: Report,
                           sent: seq<(nat, Target)>, out: seq<(nat, Target)>)
      requires |turns| == |batch|
    {
      && 0 <= i <= |batch|
      && Drained(st, batch[..i], turns[..i], cfg) == Finished(now, report.(claimed := i))
      && out == sent + Handed(batch[..i], turns[..i])
    }

    lemma MidwayNext(st: Store, batch: seq<Claimed>, turns: seq<Turn>, i: nat, mid: Store, report: Report,
                     sent: seq<(nat, Target)>, out: seq<(nat, Target)>)
      requires |turns| == |batch| && i < |batch|
      requires Midway(st, batch, turns, i, mid, report, sent, out)
      ensures out + HandedFor(batch[i], turns[i]) == sent + Handed(batch[..i + 1], turns[..i + 1])
      ensures
        match Handled(mid, batch[i].id, batch[i].attempts, turns[i], cfg)
        case Threw(end) => Drained(st, batch[..i + 1], turns[..i + 1], cfg) == StoppedAt(i, end)
        case Done(end, count, silent) =>
          Midway(st, batch, turns, i + 1, end, Enter(report, count, silent), sent, out + HandedFor(batch[i], turns[i]))
    {
      Unfold(batch, turns, i);
    }

    static lemma Unfold(batch: seq<Claimed>, turns: seq<Turn>, i: nat)
      requires |turns| == |batch| && i < |batch|
      ensures batch[..i + 1][..i] == batch[..i] && turns[..i + 1][..i] == turns[..i]
      ensures batch[..i + 1][i] == batch[i] && turns[..i + 1][i] == turns[i]
    {
    }

    lemma {:induction false} StaysStopped(st: Store, batch: seq<Claimed>, turns: seq<Turn>, i: nat)
      requires |turns| == |batch| && i <= |batch|
      requires Drained(st, batch[..i], turns[..i], cfg).StoppedAt?
      ensures Drained(st, batch, turns, cfg) == Drained(st, batch[..i], turns[..i], cfg)
      decreases |batch| - i
    {
      if i < |batch| {
        Unfold(batch, turns, i);
        StaysStopped(st, batch, turns, i + 1);
      } else {
        assert batch[..i] == batch && turns[..i] == turns;
      }
    }

    method ClaimBatch(batch: seq<Claimed>, now: int)
      modifies `store
      ensures store == LeaseAll(old(store), batch, now, cfg)
    {
      store := LeaseAll(store, batch, now, cfg);
    }

    method HandleEvent(event: Claimed, turn: Turn) returns (count: Counter, silent: bool, stopped: bool)
      modifies `store, `outbound
      ensures
        match Handled(old(store), event.id, event.attempts, turn, cfg)
        case Threw(end) => stopped && store == end
        case Done(end, c, s) => !stopped && (store, count, silent) == (end, c, s)
      ensures outbound == old(outbound) + HandedFor(event, turn)
    {
      count, silent, stopped := AsRetried, false, false;
      if FailsEarly(turn) { return count, silent, true; }
      var external := PickChannel(turn.policy, turn.address);
      if external.None? {
        if turn.policy.inAccount {
          var published, threw := PublishEvent(event.id, true, turn.holder, FaultAt(turn, 0));
          if threw { return count, silent, true; }
          if published { return AsPublished, false, false; }
          count, stopped := FailAttempt(event, "NOT_NOTIFIABLE", turn.failAt, FaultAt(turn, 1));
          return count, true, stopped;
        }
        count, stopped := FailAttempt(event, "NOT_NOTIFIABLE", turn.failAt, FaultAt(turn, 0));
        return count, true, stopped;
      }
      outbound := outbound + [(event.id, external.value)];
      match turn.send {
        case Crashed =>
          return count, silent, true;
        case OutboundFailed =>
          count, stopped := FailAttempt(event, "DISPATCH_FAILED", turn.failAt, FaultAt(turn, 0));
        case Accepted =>
          count := AsPublished;
          var published;
          published, stopped := PublishEvent(event.id, turn.policy.inAccount, turn.holder, FaultAt(turn, 0));
          if !stopped && !published {
            published, stopped := PublishEvent(event.id, false, turn.holder, FaultAt(turn, 1));
          }
      }
    }

    /** `ok` is false when the person has no account to deposit in. */
    method PublishEvent(id: nat, notifyAccount: bool, holder: Option<nat>, fault: Option<bool>)
      returns (ok: bool, threw: bool)
      modifies `store
      ensures threw <==> fault.Some?
      ensures store == Applied(fault, old(store), Publish(old(store), id, notifyAccount, holder).0)
      ensures ok <==> Publish(old(store), id, notifyAccount, holder).1 != NoAccount
    {
      var (st, verdict) := Publish(store, id, notifyAccount, holder);
      store := Applied(fault, store, st);
      return verdict != NoAccount, fault.Some?;
    }

    method FailAttempt(event: Claimed, code: string, now: int, fault: Option<bool>) returns (count: Counter, threw: bool)
      modifies `store
      ensures threw <==> fault.Some?
      ensures
        var (st, c) := FailAndCount(old(store), event.id, event.attempts, code, now, cfg);
        store == Applied(fault, old(store), st) && count == c
    {
      var backoff := Min(cfg.backoffBaseSeconds * Pow2(event.attempts), cfg.backoffCapSeconds);
      var (st, verdict) := Fail(store, event.id, code, cfg.maxAttempts, backoff, now);
      store := Applied(fault, store, st);
      return if verdict == Dead then AsFailed else AsRetried, fault.Some?;
    }
  }

  // ---------------------------------------------------------------------------
  // What a drain that ran to its end has done
  // ---------------------------------------------------------------------------

  /** What one handling does to a pending row, and the counter that says so. */
  ghost predicate Settles(before: Row, after: Row, count: Counter, silent: bool, attempts: nat, failAt: int, cfg: Config) {
    var failed := before.(
      attempts := before.attempts + 1,
      nextAttemptAt := failAt + Min(cfg.backoffBaseSeconds * Pow2(attempts), cfg.backoffCapSeconds),
      lastErrorCode := Some(if silent then "NOT_NOTIFIABLE" else "DISPATCH_FAILED"));
    match count
    case AsPublished => after == before.(status := PUBLISHED) && !silent
    case AsRetried => after == failed && failed.attempts < cfg.maxAttempts
    case AsFailed => after == failed.(status := FAILED) && failed.attempts >= cfg.maxAttempts
  }

  /** A note is left in the account exactly when the event is published, the policy says so and there is one. */
  predicate Noted(st: Store, after: Store, id: nat, count: Counter, turn: Turn) {
    after.notifications ==
      (if count == AsPublished && turn.policy.inAccount && turn.holder.Some? && id !in st.notifications
       then st.notifications[id := turn.holder.value] else st.notifications)
  }

  predicate OthersStay(before: map<nat, Row>, after: map<nat, Row>, id: nat) {
    after.Keys == before.Keys && forall k <- before :: k != id ==> after[k] == before[k]
  }

  /** A failed attempt has its verdict in its row, and leaves no note. */
  lemma FailSettles(st: Store, id: nat, attempts: nat, silent: bool, turn: Turn, n: nat, cfg: Config)
    requires IsPending(st, id) && FailHandled(st, id, attempts, silent, turn, n, cfg).Done?
    ensures
      var Done(end, count, s) := FailHandled(st, id, attempts, silent, turn, n, cfg);
      && count != AsPublished && s == silent
      && OthersStay(st.rows, end.rows, id)
      && Settles(st.rows[id], end.rows[id], count, silent, attempts, turn.failAt, cfg)
      && end.notifications == st.notifications
  {
  }

  /** A handled event has its verdict, in its row and in the account; no other event is touched. */
  lemma HandledSettles(st: Store, id: nat, attempts: nat, turn: Turn, cfg: Config)
    requires IsPending(st, id) && Handled(st, id, attempts, turn, cfg).Done?
    ensures
      var Done(end, count, silent) := Handled(st, id, attempts, turn, cfg);
      && OthersStay(st.rows, end.rows, id)
      && Settles(st.rows[id], end.rows[id], count, silent, attempts, turn.failAt, cfg)
      && Noted(st, end, id, count, turn)
  {
    if PickChannel(turn.policy, turn.address).None? {
      if !turn.policy.inAccount {
        FailSettles(st, id, attempts, true, turn, 0, cfg);
      } else if turn.holder.None? {
        FailSettles(st, id, attempts, true, turn, 1, cfg);
      }
    } else if turn.send.OutboundFailed? {
      FailSettles(st, id, attempts, false, turn, 0, cfg);
    }
  }

  /** An event that an error stopped has its verdict all the same, or nothing of it. */
  lemma ThrownSettles(st: Store, id: nat, attempts: nat, turn: Turn, cfg: Config)
    requires IsPending(st, id) && Handled(st, id, attempts, turn, cfg).Threw?
    ensures
      var Threw(end) := Handled(st, id, attempts, turn, cfg);
      end == st ||
      (exists count, silent ::
         Settles(st.rows[id], end.rows[id], count, silent, attempts, turn.failAt, cfg) && Noted(st, end, id, count, turn))
  {
    var end := Handled(st, id, attempts, turn, cfg).store;
    if end != st {
      var calm := CalmHandling(st, id, attempts, turn, cfg);
      HandledSettles(st, id, attempts, turn.(fault := None), cfg);
      assert Settles(st.rows[id], end.rows[id], calm.count, calm.silent, attempts, turn.failAt, cfg);
    }
  }

  /** What an applied statement left is what the undisturbed turn leaves. */
  lemma CalmHandling(st: Store, id: nat, attempts: nat, turn: Turn, cfg: Config) returns (calm: Handling)
    requires Handled(st, id, attempts, turn, cfg).Threw? && Handled(st, id, attempts, turn, cfg).store != st
    ensures calm == Handled(st, id, attempts, turn.(fault := None), cfg)
    ensures calm.Done? && calm.store == Handled(st, id, attempts, turn, cfg).store
  {
    calm := Handled(st, id, attempts, turn.(fault := None), cfg);
  }

  /** How many of `ids` are in status `s`. */
  function Tally(rows: map<nat, Row>, batch: seq<Claimed>, s: Status): nat {
    if batch == [] then 0
    else
      var last := batch[|batch| - 1].id;
      Tally(rows, batch[..|batch| - 1], s) + (if last in rows && rows[last].status == s then 1 else 0)
  }

  lemma {:induction false} TallyFrame(before: map<nat, Row>, after: map<nat, Row>, batch: seq<Claimed>, s: Status)
    requires forall c <- batch :: (c.id in before <==> c.id in after) && (c.id in before ==> before[c.id] == after[c.id])
    ensures Tally(before, batch, s) == Tally(after, batch, s)
  {
    if batch != [] {
      assert batch[|batch| - 1] in batch;
      forall c <- batch[..|batch| - 1] ensures c in batch {}
      TallyFrame(before, after, batch[..|batch| - 1], s);
    }
  }

  ghost predicate AllPending(st: Store, batch: seq<Claimed>) {
    && (forall i, j :: 0 <= i < j < |batch| ==> batch[i].id != batch[j].id)
    && (forall c <- batch :: IsPending(st, c.id))
  }

  ghost predicate SameOutside(st: Store, end: Store, batch: seq<Claimed>) {
    end.rows.Keys == st.rows.Keys && forall k <- st.rows :: (forall c <- batch :: c.id != k) ==> end.rows[k] == st.rows[k]
  }

  /** The report counts each event of the batch under what became of it. */
  ghost predicate Accounted(end: Store, batch: seq<Claimed>, report: Report) {
    && report.claimed == |batch| == report.published + report.retried + report.failed
    && report.notNotifiable <= report.retried + report.failed
    && report.published == Tally(end.rows, batch, PUBLISHED)
    && report.retried == Tally(end.rows, batch, PENDING)
    && report.failed == Tally(end.rows, batch, FAILED)
  }

  lemma AccountedNext(mid: Store, before: seq<Claimed>, report: Report, last: Claimed, turn: Turn, cfg: Config)
    requires Accounted(mid, before, report) && IsPending(mid, last.id)
    requires Handled(mid, last.id, last.attempts, turn, cfg).Done?
    requires forall c <- before :: c.id != last.id
    ensures
      var Done(end, count, silent) := Handled(mid, last.id, last.attempts, turn, cfg);
      Accounted(end, before + [last], Enter(report.(claimed := report.claimed + 1), count, silent))
  {
    HandledSettles(mid, last.id, last.attempts, turn, cfg);
    OneMore(mid, before, last, turn, cfg);
  }

  lemma StatementsStay(st: Store, id: nat, attempts: nat, notify: bool, silent: bool, turn: Turn, n: nat, cfg: Config)
    ensures OthersStay(st.rows, Publish(st, id, notify, turn.holder).0.rows, id)
    ensures OthersStay(st.rows, FailHandled(st, id, attempts, silent, turn, n, cfg).store.rows, id)
  {
  }

  lemma OnlyItsEvent(st: Store, id: nat, attempts: nat, turn: Turn, cfg: Config)
    ensures OthersStay(st.rows, Handled(st, id, attempts, turn, cfg).store.rows, id)
  {
    if !FailsEarly(turn) {
      if PickChannel(turn.policy, turn.address).None? {
        var st1 := Publish(st, id, true, turn.holder).0;
        StatementsStay(st, id, attempts, true, true, turn, 0, cfg);
        StatementsStay(st1, id, attempts, true, true, turn, 1, cfg);
      } else {
        var st1 := Publish(st, id, turn.policy.inAccount, turn.holder).0;
        StatementsStay(st, id, attempts, turn.policy.inAccount, false, turn, 0, cfg);
        StatementsStay(st1, id, attempts, false, false, turn, 1, cfg);
      }
    }
  }

  lemma {:induction false} OnlyTheBatch(st: Store, batch: seq<Claimed>, turns: seq<Turn>, cfg: Config)
    requires |turns| == |batch|
    ensures SameOutside(st, Drained(st, batch, turns, cfg).store, batch)
  {
    if batch != [] {
      var n := |batch| - 1;
      var front := Drained(st, batch[..n], turns[..n], cfg);
      OnlyTheBatch(st, batch[..n], turns[..n], cfg);
      forall c <- batch[..n] ensures c in batch {}
      assert batch[n] in batch;
      OnlyItsEvent(front.store, batch[n].id, batch[n].attempts, turns[n], cfg);
    }
  }

  predicate SameRow(st: Store, end: Store, id: nat) {
    id in st.rows && id in end.rows && end.rows[id] == st.rows[id]
  }

  /** The last event of a batch is still as it was when the others are handled. */
  lemma LastIsUntouched(st: Store, batch: seq<Claimed>, turns: seq<Turn>, cfg: Config)
    requires batch != [] && |turns| == |batch| && AllPending(st, batch)
    ensures AllPending(st, batch[..|batch| - 1])
    ensures forall c <- batch[..|batch| - 1] :: c.id != batch[|batch| - 1].id
    ensures
      var n := |batch| - 1;
      && SameRow(st, Drained(st, batch[..n], turns[..n], cfg).store, batch[n].id)
      && IsPending(Drained(st, batch[..n], turns[..n], cfg).store, batch[n].id)
  {
    var n := |batch| - 1;
    forall c <- batch[..n] ensures c in batch && c.id != batch[n].id {}
    assert batch[n] in batch;
    OnlyTheBatch(st, batch[..n], turns[..n], cfg);
  }

  lemma {:induction false} DrainAccounts(st: Store, batch: seq<Claimed>, turns: seq<Turn>, cfg: Config)
    requires |turns| == |batch| && Drained(st, batch, turns, cfg).Finished? && AllPending(st, batch)
    ensures
      var Finished(end, report) := Drained(st, batch, turns, cfg);
      Accounted(end, batch, report)
  {
    if batch != [] {
      var n := |batch| - 1;
      var Finished(mid, report) := Drained(st, batch[..n], turns[..n], cfg);
      LastIsUntouched(st, batch, turns, cfg);
      DrainAccounts(st, batch[..n], turns[..n], cfg);
      AccountedNext(mid, batch[..n], report, batch[n], turns[n], cfg);
      assert batch[..n] + [batch[n]] == batch;
    }
  }

  /**
    Every claimed event leaves an undisturbed drain PUBLISHED, dead, or PENDING with one more
    failure recorded, and the report counts exactly that: claimed = published + retried + failed.
   */
  lemma ReportIsTheTruth(st: Store, batch: seq<Claimed>, turns: seq<Turn>, cfg: Config)
    requires |turns| == |batch| && Drained(st, batch, turns, cfg).Finished? && AllPending(st, batch)
    ensures
      var Finished(end, report) := Drained(st, batch, turns, cfg);
      Accounted(end, batch, report) && SameOutside(st, end, batch)
  {
    DrainAccounts(st, batch, turns, cfg);
    OnlyTheBatch(st, batch, turns, cfg);
  }

  /** Whether the event an error stopped at is as it was, or has its verdict all the same. */
  ghost predicate AsItWasOrSettled(st: Store, done: Store, end: Store, event: Claimed, turn: Turn, cfg: Config)
    requires event.id in st.rows && event.id in end.rows
  {
    end == done
    || exists count, silent :: Settles(st.rows[event.id], end.rows[event.id], count, silent, event.attempts, turn.failAt, cfg)
  }

  /** Stopped at `at`: the events before are settled, those after untouched, and the one it met is either. */
  ghost predicate StopsAt(st: Store, batch: seq<Claimed>, turns: seq<Turn>, at: nat, end: Store, cfg: Config)
    requires |turns| == |batch|
  {
    && at < |batch|
    && Drained(st, batch[..at], turns[..at], cfg).Finished?
    && batch[at].id in st.rows && batch[at].id in end.rows
    && OthersStay(Drained(st, batch[..at], turns[..at], cfg).store.rows, end.rows, batch[at].id)
    && AsItWasOrSettled(st, Drained(st, batch[..at], turns[..at], cfg).store, end, batch[at], turns[at], cfg)
    && (forall k :: at < k < |batch| ==> SameRow(st, end, batch[k].id))
  }

  lemma StopStretches(st: Store, batch: seq<Claimed>, turns: seq<Turn>, n: nat, at: nat, end: Store, cfg: Config)
    requires |turns| == |batch| == n + 1 && AllPending(st, batch) && StopsAt(st, batch[..n], turns[..n], at, end, cfg)
    requires SameRow(st, end, batch[n].id)
    ensures StopsAt(st, batch, turns, at, end, cfg)
  {
    assert batch[..n][..at] == batch[..at] && turns[..n][..at] == turns[..at];
    forall k | at < k < |batch| ensures SameRow(st, end, batch[k].id) {
      if k < n { assert batch[..n][k] == batch[k]; }
    }
  }

  /** A drain an error stopped has settled what came before it and touched nothing after it. */
  lemma {:induction false} StopIsLocal(st: Store, batch: seq<Claimed>, turns: seq<Turn>, cfg: Config)
    requires |turns| == |batch| && Drained(st, batch, turns, cfg).StoppedAt? && AllPending(st, batch)
    ensures
      var StoppedAt(at, end) := Drained(st, batch, turns, cfg);
      StopsAt(st, batch, turns, at, end, cfg)
  {
    var n := |batch| - 1;
    var front := Drained(st, batch[..n], turns[..n], cfg);
    LastIsUntouched(st, batch, turns, cfg);
    if front.StoppedAt? {
      StopIsLocal(st, batch[..n], turns[..n], cfg);
      StopStretches(st, batch, turns, n, front.at, front.store, cfg);
    } else {
      StopAtLast(st, front.store, batch[n], turns[n], cfg);
    }
  }

  lemma StopAtLast(st: Store, done: Store, event: Claimed, turn: Turn, cfg: Config)
    requires IsPending(st, event.id) && event.id in done.rows && done.rows[event.id] == st.rows[event.id]
    requires Handled(done, event.id, event.attempts, turn, cfg).Threw?
    ensures
      var end := Handled(done, event.id, event.attempts, turn, cfg).store;
      OthersStay(done.rows, end.rows, event.id) && AsItWasOrSettled(st, done, end, event, turn, cfg)
  {
    OnlyItsEvent(done, event.id, event.attempts, turn, cfg);
    ThrownSettles(done, event.id, event.attempts, turn, cfg);
  }

  /** The tallies after one more handling. */
  lemma OneMore(mid: Store, before: seq<Claimed>, last: Claimed, turn: Turn, cfg: Config)
    requires IsPending(mid, last.id) && Handled(mid, last.id, last.attempts, turn, cfg).Done?
    requires forall c <- before :: c.id != last.id
    ensures
      var Done(end, count, _) := Handled(mid, last.id, last.attempts, turn, cfg);
      forall s :: Tally(end.rows, before + [last], s) ==
                  Tally(mid.rows, before, s) + if s == StatusOf(count) then 1 else 0
  {
    var Done(end, count, _) := Handled(mid, last.id, last.attempts, turn, cfg);
    HandledSettles(mid, last.id, last.attempts, turn, cfg);
    forall s ensures Tally(end.rows, before + [last], s) ==
                     Tally(mid.rows, before, s) + if s == StatusOf(count) then 1 else 0
    {
      assert (before + [last])[..|before|] == before;
      TallyFrame(mid.rows, end.rows, before, s);
    }
  }

  function StatusOf(count: Counter): Status {
    match count
    case AsPublished => PUBLISHED
    case AsRetried => PENDING
    case AsFailed => FAILED
  }

  // ---------------------------------------------------------------------------
  // What a turn deserves
  // ---------------------------------------------------------------------------

  /** A channel and an address exist. */
  predicate HasTarget(turn: Turn) { turn.address.Some? && turn.policy.allowedChannels != [] }

  /** The person is reached: by a send that was accepted, or, for want of a target, by a note in their account. */
  predicate Notifies(turn: Turn) {
    if HasTarget(turn) then turn.send == Accepted else turn.policy.inAccount && turn.holder.Some?
  }

  /** How many outbox statements the turn of a pending event issues when none of them fails. */
  function Statements(turn: Turn): nat {
    if HasTarget(turn) then
      match turn.send
      case Crashed => 0
      case OutboundFailed => 1
      case Accepted => if turn.policy.inAccount && turn.holder.None? then 2 else 1
    else if turn.policy.inAccount && turn.holder.None? then 2 else 1
  }

  /** An error of a read, of the send, or of a statement the turn gets to. */
  predicate Stops(turn: Turn) {
    || turn.fault == Some(AtPolicy) || turn.fault == Some(AtAddress)
    || (HasTarget(turn) && turn.send == Crashed)
    || (turn.fault.Some? && turn.fault.value.AtStatement? && turn.fault.value.n < Statements(turn))
  }

  /** The status a pending event is left in by a turn that nothing stops. */
  function Fate(attempts: nat, turn: Turn, maxAttempts: int): Status {
    if Notifies(turn) then PUBLISHED else if attempts + 1 >= maxAttempts then FAILED else PENDING
  }

  /**
    A turn is stopped exactly by an error it meets; otherwise the event is counted as published
    exactly when its person was reached, and as silent exactly when there was no target and
    nothing was left in an account.
   */
  lemma TurnDeserves(st: Store, id: nat, attempts: nat, turn: Turn, cfg: Config)
    requires IsPending(st, id)
    ensures
      var r := Handled(st, id, attempts, turn, cfg);
      && (r.Threw? <==> Stops(turn))
      && (r.Done? ==>
            && (r.count == AsPublished <==> Notifies(turn))
            && (r.count == AsFailed <==> !Notifies(turn) && st.rows[id].attempts + 1 >= cfg.maxAttempts)
            && (r.silent <==> !HasTarget(turn) && !Notifies(turn)))
  {
  }

  /** So is its row. */
  lemma FateOf(st: Store, id: nat, attempts: nat, turn: Turn, cfg: Config)
    requires IsPending(st, id) && !Stops(turn)
    ensures
      var r := Handled(st, id, attempts, turn, cfg);
      && r.Done? && id in r.store.rows
      && r.store.rows[id].status == Fate(st.rows[id].attempts, turn, cfg.maxAttempts)
  {
    TurnDeserves(st, id, attempts, turn, cfg);
    HandledSettles(st, id, attempts, turn, cfg);
  }

  /** How many turns reach their person. */
  function Notified(turns: seq<Turn>): nat {
    if turns == [] then 0 else Notified(turns[..|turns| - 1]) + if Notifies(turns[|turns| - 1]) then 1 else 0
  }

  /** Every event of the batch has the status its own turn deserves. */
  ghost predicate AllFates(st: Store, end: Store, batch: seq<Claimed>, turns: seq<Turn>, cfg: Config)
    requires |turns| == |batch|
  {
    forall i :: 0 <= i < |batch| ==>
      && batch[i].id in st.rows && batch[i].id in end.rows
      && end.rows[batch[i].id].status == Fate(st.rows[batch[i].id].attempts, turns[i], cfg.maxAttempts)
  }

  lemma FatesNext(st: Store, mid: Store, end: Store, batch: seq<Claimed>, turns: seq<Turn>, n: nat, cfg: Config)
    requires |turns| == |batch| == n + 1 && AllPending(st, batch) && AllFates(st, mid, batch[..n], turns[..n], cfg)
    requires OthersStay(mid.rows, end.rows, batch[n].id)
    requires batch[n].id in st.rows && batch[n].id in end.rows
    requires end.rows[batch[n].id].status == Fate(st.rows[batch[n].id].attempts, turns[n], cfg.maxAttempts)
    ensures AllFates(st, end, batch, turns, cfg)
  {
    forall i | 0 <= i < |batch|
      ensures batch[i].id in st.rows && batch[i].id in end.rows
      ensures end.rows[batch[i].id].status == Fate(st.rows[batch[i].id].attempts, turns[i], cfg.maxAttempts)
    {
      if i < n { assert batch[..n][i] == batch[i] && turns[..n][i] == turns[i]; }
    }
  }

  /**
    A drain of pending events goes through its batch exactly when no turn is stopped.  Then each
    event has the status its turn deserves, and the report counts as published those reached.
   */
  lemma {:induction false} DrainDeserves(st: Store, batch: seq<Claimed>, turns: seq<Turn>, cfg: Config)
    requires |turns| == |batch| && AllPending(st, batch)
    ensures
      var r := Drained(st, batch, turns, cfg);
      && (r.Finished? <==> forall i :: 0 <= i < |turns| ==> !Stops(turns[i]))
      && (r.Finished? ==> AllFates(st, r.store, batch, turns, cfg) && r.report.published == Notified(turns))
  {
    if batch != [] {
      var n := |batch| - 1;
      var front := Drained(st, batch[..n], turns[..n], cfg);
      LastIsUntouched(st, batch, turns, cfg);
      DrainDeserves(st, batch[..n], turns[..n], cfg);
      assert forall i :: 0 <= i < n ==> turns[..n][i] == turns[i];
      if front.Finished? {
        TurnDeserves(front.store, batch[n].id, batch[n].attempts, turns[n], cfg);
        if !Stops(turns[n]) {
          FateOf(front.store, batch[n].id, batch[n].attempts, turns[n], cfg);
          OnlyItsEvent(front.store, batch[n].id, batch[n].attempts, turns[n], cfg);
          FatesNext(st, front.store, Drained(st, batch, turns, cfg).store, batch, turns, n, cfg);
        }
      }
    }
  }

  /** The address and the first channel of a turn that has both. */
  function TargetOf(turn: Turn): Target
    requires HasTarget(turn)
  {
    Target(turn.address.value, turn.policy.allowedChannels[0])
  }

  /** The reads before the send went through. */
  predicate ReadsThrough(turn: Turn) { turn.fault != Some(AtPolicy) && turn.fault != Some(AtAddress) }

  /**
    Within a drain no event is handed to the dispatcher twice; those handed are exactly the ones
    with an address and a channel whose reads went through, each to that address by that channel.
   */
  lemma {:induction false} HandedOnce(batch: seq<Claimed>, turns: seq<Turn>)
    requires |turns| == |batch|
    requires forall i, j :: 0 <= i < j < |batch| ==> batch[i].id != batch[j].id
    ensures forall i, j :: 0 <= i < j < |Handed(batch, turns)| ==> Handed(batch, turns)[i].0 != Handed(batch, turns)[j].0
    ensures forall h <- Handed(batch, turns) ::
              exists k :: 0 <= k < |batch| && batch[k].id == h.0 && HasTarget(turns[k]) && ReadsThrough(turns[k])
                          && h.1 == TargetOf(turns[k])
    ensures forall k :: 0 <= k < |batch| && HasTarget(turns[k]) && ReadsThrough(turns[k]) ==>
              (batch[k].id, TargetOf(turns[k])) in Handed(batch, turns)
  {
    if batch != [] {
      var n := |batch| - 1;
      HandedOnce(batch[..n], turns[..n]);
      var sofar := Handed(batch[..n], turns[..n]);
      forall h <- sofar
        ensures h.0 != batch[n].id
        ensures exists k :: 0 <= k < |batch| && batch[k].id == h.0 && HasTarget(turns[k]) && ReadsThrough(turns[k])
                            && h.1 == TargetOf(turns[k])
      {
        var k :| 0 <= k < n && batch[..n][k].id == h.0 && HasTarget(turns[..n][k]) && ReadsThrough(turns[..n][k])
                 && h.1 == TargetOf(turns[..n][k]);
        assert batch[k].id == h.0 && turns[k] == turns[..n][k];
      }
      forall k | 0 <= k < |batch| && HasTarget(turns[k]) && ReadsThrough(turns[k])
        ensures (batch[k].id, TargetOf(turns[k])) in Handed(batch, turns)
      {
        if k < n {
          assert batch[..n][k] == batch[k] && turns[..n][k] == turns[k];
        } else {
          assert Handed(batch, turns) == sofar + [(batch[n].id, TargetOf(turns[n]))];
        }
      }
    }
  }

  /** A claimed event is due again exactly when its lease is over; nothing else of the queue moves. */
  lemma LeaseKeepsOthersAway(st: Store, batch: seq<Claimed>, now: int, cfg: Config, id: nat, at: int)
    requires id in st.rows && st.rows[id].status == PENDING
    ensures
      var leased := LeaseAll(st, batch, now, cfg);
      && leased.rows.Keys == st.rows.Keys && leased.notifications == st.notifications
      && (if exists c <- batch :: c.id == id then Due(leased.rows[id], at) <==> at >= now + cfg.leaseSeconds
          else leased.rows[id] == st.rows[id])
      && leased.rows[id].(nextAttemptAt := 0) == st.rows[id].(nextAttemptAt := 0)
  {
  }
}
