/**
  The drain and the runs of the queue are one model: a turn of a drain that nothing stops is a
  stretch of a run, of the worker that planned the event.
 */
module OutboxTurns {
  import opened Wrappers
  import opened Arithmetic
  import opened Outboxes
  import opened VerifiedAddresses
  import opened OutboxRuns

  /** What a worker plans for an event is what the turn, with that policy and that address, has for it. */
  predicate PlanIs(plan: Plan, turn: Turn) {
    if HasTarget(turn) then plan.External? && plan.target == TargetOf(turn) && plan.inAccount == turn.policy.inAccount
    else if turn.policy.inAccount then plan == Deposit
    else plan == Silent
  }

  lemma PlanForIs(row: Option<Claim>, token: Option<string>, turn: Turn, w: World)
    requires turn.address == var r := Conclude(row, token, w.crypto); if r.Resolved? then Some(r.phone) else None
    ensures PlanIs(PlanFor(turn.policy, row, token, w), turn)
  {
  }

  /** The verdict of a job, written again without the account when there is none to deposit in. */
  function Verdict(j: nat, turn: Turn): seq<Action> {
    var once := Record(j, turn.holder, turn.failAt);
    if Statements(turn) == 2 then [once, once] else [once]
  }

  /** The worker's steps: a send when there is a target, and the verdict. */
  function StepsOf(j: nat, turn: Turn): seq<Action> {
    (if HasTarget(turn) then [Dispatch(j, turn.send == Accepted)] else []) + Verdict(j, turn)
  }

  /** What the runs know of the turn: the store the drain leaves, and its verdict in the log. */
  ghost predicate SameEnd(s: State, e: State, j: nat, id: nat, r: Handling) {
    && r.Done? && e.store == r.store && e.registry == s.registry && e.jobs == s.jobs - {j}
    && OutboxRuns.Published(e.log, id) == OutboxRuns.Published(s.log, id) + (if r.count == AsPublished then 1 else 0)
    && Failures(e.log, id) == Failures(s.log, id) + (if r.count == AsPublished then 0 else 1)
  }

  lemma RunCons(s: State, a: Action, mid: State, rest: seq<Action>, e: State, w: World, cfg: Config)
    requires Step(s, a, w, cfg) == Some(mid) && OutboxRuns.Reaches(mid, rest, e, w, cfg)
    ensures OutboxRuns.Reaches(s, [a] + rest, e, w, cfg)
  {
    assert ([a] + rest)[1..] == rest;
  }

  lemma OneRecord(s: State, j: nat, turn: Turn, e: State, w: World, cfg: Config)
    requires Step(s, Record(j, turn.holder, turn.failAt), w, cfg) == Some(e)
    ensures OutboxRuns.Reaches(s, [Record(j, turn.holder, turn.failAt)], e, w, cfg)
  {
    assert [Record(j, turn.holder, turn.failAt)][1..] == [];
  }

  /** A verdict recorded after the send, in one step or two. */
  lemma VerdictAfterSend(s: State, j: nat, id: nat, attempts: nat, turn: Turn, w: World, cfg: Config) returns (e: State)
    requires j in s.jobs && IsPending(s.store, id) && HasTarget(turn) && turn.send != Crashed && turn.fault.None?
    requires s.jobs[j] == Dispatched(id, attempts, turn.send == Accepted, turn.policy.inAccount)
    ensures OutboxRuns.Reaches(s, Verdict(j, turn), e, w, cfg)
    ensures SameEnd(s, e, j, id, Handled(s.store, id, attempts, turn, cfg))
  {
    var once := Record(j, turn.holder, turn.failAt);
    var s1 := Step(s, once, w, cfg).value;
    if Statements(turn) == 2 {
      assert s1.store == s.store && s1.log == s.log && s1.jobs == s.jobs[j := Dispatched(id, attempts, true, false)];
      e := Step(s1, once, w, cfg).value;
      assert e.jobs == s.jobs - {j};
      RowCounts(s.log, PublishRecorded(id, true), id);
      OneRecord(s1, j, turn, e, w, cfg);
      RunCons(s, once, s1, [once], e, w, cfg);
    } else {
      e := s1;
      RowCounts(s.log, if turn.send == Accepted then PublishRecorded(id, true) else FailRecorded(id, true), id);
      OneRecord(s, j, turn, e, w, cfg);
    }
  }

  /** A verdict recorded without a send, in one step or two. */
  lemma VerdictWithoutSend(s: State, j: nat, id: nat, attempts: nat, turn: Turn, w: World, cfg: Config) returns (e: State)
    requires j in s.jobs && IsPending(s.store, id) && !HasTarget(turn) && turn.fault.None?
    requires s.jobs[j] == Planned(id, attempts, if turn.policy.inAccount then Deposit else Silent)
    ensures OutboxRuns.Reaches(s, Verdict(j, turn), e, w, cfg)
    ensures SameEnd(s, e, j, id, Handled(s.store, id, attempts, turn, cfg))
  {
    var once := Record(j, turn.holder, turn.failAt);
    var s1 := Step(s, once, w, cfg).value;
    if Statements(turn) == 2 {
      assert s1.store == s.store && s1.log == s.log && s1.jobs == s.jobs[j := Planned(id, attempts, Silent)];
      e := Step(s1, once, w, cfg).value;
      assert e.jobs == s.jobs - {j};
      RowCounts(s.log, FailRecorded(id, false), id);
      OneRecord(s1, j, turn, e, w, cfg);
      RunCons(s, once, s1, [once], e, w, cfg);
    } else {
      e := s1;
      RowCounts(s.log, if turn.policy.inAccount then PublishRecorded(id, false) else FailRecorded(id, false), id);
      OneRecord(s, j, turn, e, w, cfg);
    }
  }

  /**
    A turn that nothing stops is a run of the worker that planned the event: the same rows and
    notes, the same verdict, and a send exactly when the turn has a target.
   */
  lemma TurnIsRun(s: State, j: nat, id: nat, attempts: nat, plan: Plan, turn: Turn, w: World, cfg: Config) returns (e: State)
    requires j in s.jobs && s.jobs[j] == Planned(id, attempts, plan) && PlanIs(plan, turn)
    requires IsPending(s.store, id) && turn.fault.None? && !Stops(turn)
    ensures OutboxRuns.Reaches(s, StepsOf(j, turn), e, w, cfg)
    ensures SameEnd(s, e, j, id, Handled(s.store, id, attempts, turn, cfg))
  {
    if HasTarget(turn) {
      var s1 := Step(s, Dispatch(j, turn.send == Accepted), w, cfg).value;
      RowCounts(s.log, Sent(id, plan.target, plan.row, turn.send == Accepted), id);
      e := VerdictAfterSend(s1, j, id, attempts, turn, w, cfg);
      assert s1.jobs - {j} == s.jobs - {j};
      RunCons(s, Dispatch(j, turn.send == Accepted), s1, Verdict(j, turn), e, w, cfg);
    } else {
      e := VerdictWithoutSend(s, j, id, attempts, turn, w, cfg);
      assert [] + Verdict(j, turn) == Verdict(j, turn);
    }
  }
}
