/**
  Runs of the outbox: workers that take leased events, resolve an address with two reads, send
  outside any transaction and then write a verdict, while workers crash, leases expire and
  lines change hands.
 */
module OutboxRuns {
  import opened Wrappers
  import opened Outboxes
  import opened VerifiedAddresses

  datatype World = World(policies: string -> Policy, crypto: Crypto)

  datatype Plan = External(target: Target, inAccount: bool, row: Claim) | Deposit | Silent

  /** One worker's handling of one event it took. */
  datatype Job =
    | Taken(id: nat, attempts: nat)
    | HalfRead(id: nat, attempts: nat, row: Option<Claim>)
    | Planned(id: nat, attempts: nat, plan: Plan)
    | Dispatched(id: nat, attempts: nat, accepted: bool, inAccount: bool)

  datatype Entry =
    | Looked(id: nat, claim: nat, row: Claim)
    | Sent(id: nat, target: Target, row: Claim, accepted: bool)
    | FailRecorded(id: nat, afterSend: bool)
    | PublishRecorded(id: nat, afterSend: bool)
    | Lost(id: nat, accepted: bool)   // a crash between a send and its verdict
    | Stale(id: nat, accepted: bool)  // a verdict that found the event settled

  datatype State = State(store: Store, registry: Registry, jobs: map<nat, Job>, log: seq<Entry>)

  datatype Action =
    | Enqueue(id: nat, eventType: string, person: nat, claim: Option<nat>, now: int)
    | Take(j: nat, id: nat, now: int)
    | ReadFingerprint(j: nat)
    | ReadValue(j: nat)
    | Dispatch(j: nat, accepted: bool)
    | Record(j: nat, holder: Option<nat>, now: int)
    | Crash(j: nat)
    | ChangeLine(line: nat, row: Claim)
    | Erase(person: nat)

  function PolicyOf(st: Store, id: nat, w: World): Policy {
    if id in st.rows then w.policies(st.rows[id].eventType) else SILENCE
  }

  function PlanFor(policy: Policy, row: Option<Claim>, token: Option<string>, w: World): Plan {
    var resolution := Conclude(row, token, w.crypto);
    var target := PickChannel(policy, if resolution.Resolved? then Some(resolution.phone) else None);
    if target.Some? then External(target.value, policy.inAccount, row.value)
    else if policy.inAccount then Deposit
    else Silent
  }

  /** A claim is born, or moves as its guard allows: REVOKED never returns. */
  predicate LineMayChange(r: Registry, claim: nat) {
    claim !in r.claims || r.claims[claim].status != REVOKED
  }

  function Append(s: State, e: Entry): State { s.(log := s.log + [e]) }

  function RecordFail(s: State, id: nat, attempts: nat, code: string, sent: Option<bool>, now: int, cfg: Config): State {
    var (st, verdict) := Fail(s.store, id, code, cfg.maxAttempts, Backoff(attempts, cfg), now);
    var s' := s.(store := st);
    if verdict != FailAlreadySettled then Append(s', FailRecorded(id, sent.Some?))
    else if sent.Some? then Append(s', Stale(id, sent.value))
    else s'
  }

  function RecordPublish(s: State, id: nat, notify: bool, holder: Option<nat>, sent: bool): (State, bool) {
    var (st, verdict) := Publish(s.store, id, notify, holder);
    var s' := s.(store := st);
    match verdict
    case NoAccount => (s', false)
    case Published => (Append(s', PublishRecorded(id, sent)), true)
    case PublishAlreadySettled => (if sent then Append(s', Stale(id, true)) else s', true)
  }

  /** One step, or None when it cannot happen. */
  function Step(s: State, a: Action, w: World, cfg: Config): Option<State> {
    match a
    case Enqueue(id, eventType, person, claim, now) =>
      if id in s.store.rows then None
      else Some(s.(store := s.store.(rows := s.store.rows[id := Row(eventType, person, claim, Status.PENDING, 0, now, None)])))
    case Take(j, id, now) =>
      if j in s.jobs || id !in s.store.rows || !Due(s.store.rows[id], now) then None
      else Some(s.(store := ClaimRow(s.store, id, now, cfg), jobs := s.jobs[j := Taken(id, s.store.rows[id].attempts)]))
    case ReadFingerprint(j) =>
      if j !in s.jobs || !s.jobs[j].Taken? || s.jobs[j].id !in s.store.rows then None
      else
        var job := s.jobs[j];
        var claim := s.store.rows[job.id].claim;
        var row := if claim.None? then None else FingerprintRow(s.registry, claim.value, true);
        var s' := s.(jobs := s.jobs[j := HalfRead(job.id, job.attempts, row)]);
        Some(if row.Some? then Append(s', Looked(job.id, claim.value, row.value)) else s')
    case ReadValue(j) =>
      if j !in s.jobs || !s.jobs[j].HalfRead? || s.jobs[j].id !in s.store.rows then None
      else
        var job := s.jobs[j];
        var claim := s.store.rows[job.id].claim;
        var token := if claim.None? then None else EncryptedValue(s.registry, claim.value, true);
        Some(s.(jobs := s.jobs[j := Planned(job.id, job.attempts, PlanFor(PolicyOf(s.store, job.id, w), job.row, token, w))]))
    case Dispatch(j, accepted) =>
      if j !in s.jobs || !s.jobs[j].Planned? || !s.jobs[j].plan.External? then None
      else
        var job := s.jobs[j];
        Some(Append(s.(jobs := s.jobs[j := Dispatched(job.id, job.attempts, accepted, job.plan.inAccount)]),
                    Sent(job.id, job.plan.target, job.plan.row, accepted)))
    case Record(j, holder, now) =>
      if j !in s.jobs then None else RecordStep(s, j, holder, now, cfg)
    case Crash(j) =>
      if j !in s.jobs then None
      else
        var job := s.jobs[j];
        var s' := s.(jobs := s.jobs - {j});
        Some(if job.Dispatched? then Append(s', Lost(job.id, job.accepted)) else s')
    case ChangeLine(line, row) =>
      if LineMayChange(s.registry, line)
      then Some(s.(registry := s.registry.(claims := s.registry.claims[line := row])))
      else None
    case Erase(person) => Some(s.(registry := s.registry.(erased := s.registry.erased + {person})))
  }

  /** The verdict of a job; an account that is missing leads to the next thing the service tries. */
  function RecordStep(s: State, j: nat, holder: Option<nat>, now: int, cfg: Config): Option<State>
    requires j in s.jobs
  {
    var job := s.jobs[j];
    var done := s.(jobs := s.jobs - {j});
    match job
    case Taken(_, _) => None
    case HalfRead(_, _, _) => None
    case Planned(id, attempts, plan) =>
      if plan.External? then None
      else if plan.Deposit? then
        var (s', ok) := RecordPublish(done, id, true, holder, false);
        Some(if ok then s' else s'.(jobs := s.jobs[j := Planned(id, attempts, Silent)]))
      else Some(RecordFail(done, id, attempts, "NOT_NOTIFIABLE", None, now, cfg))
    case Dispatched(id, attempts, accepted, inAccount) =>
      if accepted then
        var (s', ok) := RecordPublish(done, id, inAccount, holder, true);
        Some(if ok then s' else s'.(jobs := s.jobs[j := Dispatched(id, attempts, true, false)]))
      else Some(RecordFail(done, id, attempts, "DISPATCH_FAILED", Some(false), now, cfg))
  }

  // ---------------------------------------------------------------------------
  // Counting
  // ---------------------------------------------------------------------------

  datatype Kind =
    | Sends(accepted: bool)
    | Fails(afterSend: bool)
    | Publishes(afterSend: bool)
    | Losses(accepted: bool)
    | Stales(accepted: bool)

  predicate Matches(e: Entry, k: Kind, id: nat) {
    match e
    case Looked(_, _, _) => false
    case Sent(i, _, _, accepted) => i == id && k == Sends(accepted)
    case FailRecorded(i, after) => i == id && k == Fails(after)
    case PublishRecorded(i, after) => i == id && k == Publishes(after)
    case Lost(i, accepted) => i == id && k == Losses(accepted)
    case Stale(i, accepted) => i == id && k == Stales(accepted)
  }

  function Count(log: seq<Entry>, k: Kind, id: nat): nat {
    if log == [] then 0
    else Count(log[..|log| - 1], k, id) + (if Matches(log[|log| - 1], k, id) then 1 else 0)
  }

  lemma CountSnoc(log: seq<Entry>, e: Entry, k: Kind, id: nat)
    ensures Count(log + [e], k, id) == Count(log, k, id) + if Matches(e, k, id) then 1 else 0
  {
    assert (log + [e])[..|log|] == log;
  }

  predicate Awaits(job: Job, id: nat, accepted: bool) {
    job.Dispatched? && job.id == id && job.accepted == accepted
  }

  /** Jobs on `id` whose send awaits a verdict. */
  function Open(jobs: map<nat, Job>, id: nat, accepted: bool): set<nat> {
    set j | j in jobs && Awaits(jobs[j], id, accepted)
  }

  // ---------------------------------------------------------------------------
  // The life of one event
  // ---------------------------------------------------------------------------

  /**
    Attempts are the failures recorded, an event is dead exactly when they reach the maximum,
    it is published exactly when one publication was recorded, and every send is accounted for.
   */
  ghost predicate InvFor(s: State, id: nat, cfg: Config) {
    && RowInv(s, id, cfg)
    && SendInv(s, id)
  }

  function Published(log: seq<Entry>, id: nat): nat {
    Count(log, Publishes(true), id) + Count(log, Publishes(false), id)
  }

  function Failures(log: seq<Entry>, id: nat): nat {
    Count(log, Fails(true), id) + Count(log, Fails(false), id)
  }

  ghost predicate RowInv(s: State, id: nat, cfg: Config) {
    if id in s.store.rows then
      var r := s.store.rows[id];
      && r.attempts == Failures(s.log, id)
      && (r.status == FAILED ==> r.attempts == cfg.maxAttempts)
      && (r.status != FAILED ==> r.attempts < cfg.maxAttempts)
      && Published(s.log, id) == (if r.status == PUBLISHED then 1 else 0)
    else
      Failures(s.log, id) == Published(s.log, id) == 0 && forall j <- s.jobs :: s.jobs[j].id != id
  }

  /** Each send ended in the verdict it calls for, in a crash, in a verdict come too late, or awaits one. */
  ghost predicate SendsOf(s: State, id: nat, accepted: bool, verdict: Kind) {
    Count(s.log, Sends(accepted), id) ==
    Count(s.log, verdict, id) + Count(s.log, Losses(accepted), id) + Count(s.log, Stales(accepted), id)
    + |Open(s.jobs, id, accepted)|
  }

  ghost predicate SendInv(s: State, id: nat) {
    SendsOf(s, id, true, Publishes(true)) && SendsOf(s, id, false, Fails(true))
  }

  lemma Without(s: set<nat>, j: nat)
    ensures |s| == |s - {j}| + if j in s then 1 else 0
  {
    if j in s { assert s == (s - {j}) + {j}; } else { assert s == s - {j}; }
  }

  lemma OpenUpdate(jobs: map<nat, Job>, j: nat, job: Job, id: nat, accepted: bool)
    ensures
      |Open(jobs[j := job], id, accepted)|
      == |Open(jobs, id, accepted)| + (if Awaits(job, id, accepted) then 1 else 0)
         - (if j in jobs && Awaits(jobs[j], id, accepted) then 1 else 0)
  {
    assert Open(jobs[j := job], id, accepted) - {j} == Open(jobs, id, accepted) - {j};
    Without(Open(jobs, id, accepted), j);
    Without(Open(jobs[j := job], id, accepted), j);
  }

  lemma OpenRemove(jobs: map<nat, Job>, j: nat, id: nat, accepted: bool)
    requires j in jobs
    ensures |Open(jobs - {j}, id, accepted)| == |Open(jobs, id, accepted)| - (if Awaits(jobs[j], id, accepted) then 1 else 0)
  {
    assert Open(jobs - {j}, id, accepted) == Open(jobs, id, accepted) - {j};
  }

  /** Appending an entry moves exactly one counter of its own event. */
  lemma CountAll(log: seq<Entry>, e: Entry, id: nat)
    ensures forall k :: Count(log + [e], k, id) == Count(log, k, id) + if Matches(e, k, id) then 1 else 0
  {
    forall k { CountSnoc(log, e, k, id); }
  }

  // ---------------------------------------------------------------------------
  // Every step keeps it
  // ---------------------------------------------------------------------------

  /** Steps that append nothing and leave statuses, attempts and dispatched jobs as they were. */
  ghost predicate QuietFor(s: State, e: State, id: nat) {
    && e.log == s.log
    && (id in s.store.rows ==>
          && id in e.store.rows
          && e.store.rows[id].status == s.store.rows[id].status
          && e.store.rows[id].attempts == s.store.rows[id].attempts)
    && (id in e.store.rows ==> id in s.store.rows)
    && |Open(e.jobs, id, true)| == |Open(s.jobs, id, true)|
    && |Open(e.jobs, id, false)| == |Open(s.jobs, id, false)|
    && (id !in e.store.rows ==> forall j <- e.jobs :: e.jobs[j].id != id)
  }

  lemma QuietKeepsInv(s: State, e: State, id: nat, cfg: Config)
    requires InvFor(s, id, cfg) && QuietFor(s, e, id)
    ensures InvFor(e, id, cfg)
  {
  }

  lemma EnqueueKeepsInv(s: State, a: Action, id: nat, w: World, cfg: Config)
    requires InvFor(s, id, cfg) && a.Enqueue? && Step(s, a, w, cfg).Some?
    ensures InvFor(Step(s, a, w, cfg).value, id, cfg)
  {
  }

  lemma TakeKeepsInv(s: State, a: Action, id: nat, w: World, cfg: Config)
    requires InvFor(s, id, cfg) && a.Take? && Step(s, a, w, cfg).Some?
    ensures InvFor(Step(s, a, w, cfg).value, id, cfg)
  {
    var job := Taken(a.id, s.store.rows[a.id].attempts);
    OpenUpdate(s.jobs, a.j, job, id, true);
    OpenUpdate(s.jobs, a.j, job, id, false);
    QuietKeepsInv(s, Step(s, a, w, cfg).value, id, cfg);
  }

  /** A lookup is counted nowhere. */
  lemma LookedCountsNothing(log: seq<Entry>, x: nat, claim: nat, row: Claim, id: nat)
    ensures forall k :: Count(log + [Looked(x, claim, row)], k, id) == Count(log, k, id)
  {
    CountAll(log, Looked(x, claim, row), id);
  }

  lemma SameCounts(s: State, e: State, id: nat, cfg: Config)
    requires InvFor(s, id, cfg) && e.store == s.store && e.jobs == s.jobs
    requires forall k :: Count(e.log, k, id) == Count(s.log, k, id)
    ensures InvFor(e, id, cfg)
  {
  }

  lemma FingerprintKeepsInv(s: State, j: nat, id: nat, w: World, cfg: Config)
    requires InvFor(s, id, cfg) && Step(s, ReadFingerprint(j), w, cfg).Some?
    ensures InvFor(Step(s, ReadFingerprint(j), w, cfg).value, id, cfg)
  {
    var e := Step(s, ReadFingerprint(j), w, cfg).value;
    var quiet := s.(jobs := e.jobs);
    assert InvFor(quiet, id, cfg) by {
      OpenUpdate(s.jobs, j, e.jobs[j], id, true);
      OpenUpdate(s.jobs, j, e.jobs[j], id, false);
      QuietKeepsInv(s, quiet, id, cfg);
    }
    var row := e.jobs[j].row;
    if row.Some? {
      LookedCountsNothing(s.log, s.jobs[j].id, s.store.rows[s.jobs[j].id].claim.value, row.value, id);
      SameCounts(quiet, e, id, cfg);
    } else {
      assert e == quiet;
    }
  }

  lemma ValueKeepsInv(s: State, a: Action, id: nat, w: World, cfg: Config)
    requires InvFor(s, id, cfg) && a.ReadValue? && Step(s, a, w, cfg).Some?
    ensures InvFor(Step(s, a, w, cfg).value, id, cfg)
  {
    var e := Step(s, a, w, cfg).value;
    OpenUpdate(s.jobs, a.j, e.jobs[a.j], id, true);
    OpenUpdate(s.jobs, a.j, e.jobs[a.j], id, false);
    QuietKeepsInv(s, e, id, cfg);
  }

  lemma DispatchKeepsInv(s: State, a: Action, id: nat, w: World, cfg: Config)
    requires InvFor(s, id, cfg) && a.Dispatch? && Step(s, a, w, cfg).Some?
    ensures InvFor(Step(s, a, w, cfg).value, id, cfg)
  {
    var e := Step(s, a, w, cfg).value;
    OpenUpdate(s.jobs, a.j, e.jobs[a.j], id, true);
    OpenUpdate(s.jobs, a.j, e.jobs[a.j], id, false);
    CountAll(s.log, e.log[|s.log|], id);
  }

  /** The verdict entries a job's last step may add. */
  predicate ClosingEntry(job: Job, e: Entry) {
    match e
    case FailRecorded(i, after) => i == job.id && after == job.Dispatched? && (after ==> !job.accepted)
    case PublishRecorded(i, after) => i == job.id && after == job.Dispatched? && (after ==> job.accepted)
    case Stale(i, accepted) => i == job.id && job.Dispatched? && accepted == job.accepted
    case Lost(i, accepted) => i == job.id && job.Dispatched? && accepted == job.accepted
    case _ => false
  }

  /** One entry fewer awaited, one more of the kind that closes it, on each side of the account. */
  lemma ClosingKeepsSendsOf(s: State, j: nat, added: seq<Entry>, e: State, id: nat, accepted: bool, verdict: Kind)
    requires SendsOf(s, id, accepted, verdict) && j in s.jobs && e.jobs == s.jobs - {j} && e.log == s.log + added
    requires verdict == if accepted then Publishes(true) else Fails(true)
    requires (added == [] && !s.jobs[j].Dispatched?) || (|added| == 1 && ClosingEntry(s.jobs[j], added[0]))
    ensures SendsOf(e, id, accepted, verdict)
  {
    OpenRemove(s.jobs, j, id, accepted);
    if added == [] {
      assert e.log == s.log;
    } else {
      assert added == [added[0]];
      CountSnoc(s.log, added[0], Sends(accepted), id);
      CountSnoc(s.log, added[0], verdict, id);
      CountSnoc(s.log, added[0], Losses(accepted), id);
      CountSnoc(s.log, added[0], Stales(accepted), id);
    }
  }

  /** A job that leaves with its entry, or with none when it had sent nothing, keeps the sends accounted for. */
  lemma ClosingKeepsSendInv(s: State, j: nat, added: seq<Entry>, e: State, id: nat)
    requires SendInv(s, id) && j in s.jobs && e.jobs == s.jobs - {j} && e.log == s.log + added
    requires (added == [] && !s.jobs[j].Dispatched?) || (|added| == 1 && ClosingEntry(s.jobs[j], added[0]))
    ensures SendInv(e, id)
  {
    ClosingKeepsSendsOf(s, j, added, e, id, true, Publishes(true));
    ClosingKeepsSendsOf(s, j, added, e, id, false, Fails(true));
  }

  /** What an entry adds to the two counts of an event's row. */
  lemma RowCounts(log: seq<Entry>, e: Entry, id: nat)
    ensures Failures(log + [e], id) == Failures(log, id) + if e.FailRecorded? && e.id == id then 1 else 0
    ensures Published(log + [e], id) == Published(log, id) + if e.PublishRecorded? && e.id == id then 1 else 0
  {
    CountSnoc(log, e, Fails(true), id);
    CountSnoc(log, e, Fails(false), id);
    CountSnoc(log, e, Publishes(true), id);
    CountSnoc(log, e, Publishes(false), id);
  }

  lemma FailKeepsRowInv(s: State, x: nat, id: nat, attempts: nat, code: string, sent: Option<bool>, now: int, cfg: Config)
    requires RowInv(s, id, cfg)
    ensures RowInv(RecordFail(s, x, attempts, code, sent, now, cfg), id, cfg)
  {
    var (st, verdict) := Fail(s.store, x, code, cfg.maxAttempts, Backoff(attempts, cfg), now);
    RowCounts(s.log, FailRecorded(x, sent.Some?), id);
    if sent.Some? { RowCounts(s.log, Stale(x, sent.value), id); }
  }

  lemma PublishKeepsRowInv(s: State, x: nat, id: nat, notify: bool, holder: Option<nat>, sent: bool, cfg: Config)
    requires RowInv(s, id, cfg)
    ensures RowInv(RecordPublish(s, x, notify, holder, sent).0, id, cfg)
  {
    RowCounts(s.log, PublishRecorded(x, sent), id);
    RowCounts(s.log, Stale(x, true), id);
  }

  lemma CrashKeepsInv(s: State, a: Action, id: nat, w: World, cfg: Config)
    requires InvFor(s, id, cfg) && a.Crash? && Step(s, a, w, cfg).Some?
    ensures InvFor(Step(s, a, w, cfg).value, id, cfg)
  {
    var e := Step(s, a, w, cfg).value;
    var job := s.jobs[a.j];
    var added := if job.Dispatched? then [Lost(job.id, job.accepted)] else [];
    assert e.log == s.log + added;
    assert SendInv(e, id) by { ClosingKeepsSendInv(s, a.j, added, e, id); }
    if job.Dispatched? { RowCounts(s.log, Lost(job.id, job.accepted), id); }
  }

  lemma FailKeepsSendInv(s: State, j: nat, id: nat, attempts: nat, code: string, sent: Option<bool>, now: int, cfg: Config)
    requires SendInv(s, id) && j in s.jobs
    requires sent == if s.jobs[j].Dispatched? then Some(false) else None
    requires s.jobs[j].Dispatched? ==> !s.jobs[j].accepted
    ensures SendInv(RecordFail(s.(jobs := s.jobs - {j}), s.jobs[j].id, attempts, code, sent, now, cfg), id)
  {
    var x := s.jobs[j].id;
    var settled := Fail(s.store, x, code, cfg.maxAttempts, Backoff(attempts, cfg), now).1 == FailAlreadySettled;
    var added := if !settled then [FailRecorded(x, sent.Some?)] else if sent.Some? then [Stale(x, false)] else [];
    ClosingKeepsSendInv(s, j, added, RecordFail(s.(jobs := s.jobs - {j}), x, attempts, code, sent, now, cfg), id);
  }

  /** A failure recorded for a job that sent nothing, or whose send was refused. */
  lemma FailKeepsInv(s: State, j: nat, id: nat, attempts: nat, code: string, sent: Option<bool>, now: int, cfg: Config)
    requires InvFor(s, id, cfg) && j in s.jobs
    requires sent == if s.jobs[j].Dispatched? then Some(false) else None
    requires s.jobs[j].Dispatched? ==> !s.jobs[j].accepted
    ensures InvFor(RecordFail(s.(jobs := s.jobs - {j}), s.jobs[j].id, attempts, code, sent, now, cfg), id, cfg)
  {
    FailKeepsRowInv(s.(jobs := s.jobs - {j}), s.jobs[j].id, id, attempts, code, sent, now, cfg);
    FailKeepsSendInv(s, j, id, attempts, code, sent, now, cfg);
  }

  /** What a publication that was not refused for want of an account adds to the log. */
  lemma PublishAdds(s: State, x: nat, notify: bool, holder: Option<nat>, sent: bool) returns (added: seq<Entry>)
    requires RecordPublish(s, x, notify, holder, sent).1
    ensures RecordPublish(s, x, notify, holder, sent).0.log == s.log + added
    ensures RecordPublish(s, x, notify, holder, sent).0.jobs == s.jobs
    ensures added == [PublishRecorded(x, sent)] || (sent && added == [Stale(x, true)]) || (!sent && added == [])
  {
    var verdict := Publish(s.store, x, notify, holder).1;
    added := if verdict == Outboxes.Published then [PublishRecorded(x, sent)] else if sent then [Stale(x, true)] else [];
  }

  lemma PublishKeepsSendInv(s: State, j: nat, id: nat, notify: bool, holder: Option<nat>, sent: bool, cfg: Config)
    requires SendInv(s, id) && j in s.jobs
    requires sent == s.jobs[j].Dispatched? && (sent ==> s.jobs[j].accepted)
    requires RecordPublish(s.(jobs := s.jobs - {j}), s.jobs[j].id, notify, holder, sent).1
    ensures SendInv(RecordPublish(s.(jobs := s.jobs - {j}), s.jobs[j].id, notify, holder, sent).0, id)
  {
    var done := s.(jobs := s.jobs - {j});
    var added := PublishAdds(done, s.jobs[j].id, notify, holder, sent);
    ClosingKeepsSendInv(s, j, added, RecordPublish(done, s.jobs[j].id, notify, holder, sent).0, id);
  }

  /** A publication recorded for a job that sent nothing, or whose send was accepted. */
  lemma PublishKeepsInv(s: State, j: nat, id: nat, notify: bool, holder: Option<nat>, sent: bool, cfg: Config)
    requires InvFor(s, id, cfg) && j in s.jobs
    requires sent == s.jobs[j].Dispatched? && (sent ==> s.jobs[j].accepted)
    requires RecordPublish(s.(jobs := s.jobs - {j}), s.jobs[j].id, notify, holder, sent).1
    ensures InvFor(RecordPublish(s.(jobs := s.jobs - {j}), s.jobs[j].id, notify, holder, sent).0, id, cfg)
  {
    PublishKeepsRowInv(s.(jobs := s.jobs - {j}), s.jobs[j].id, id, notify, holder, sent, cfg);
    PublishKeepsSendInv(s, j, id, notify, holder, sent, cfg);
  }

  lemma RetryKeepsInv(s: State, j: nat, id: nat, notify: bool, holder: Option<nat>, sent: bool, job: Job, cfg: Config)
    requires InvFor(s, id, cfg) && j in s.jobs && job.id == s.jobs[j].id
    requires job.Dispatched? == s.jobs[j].Dispatched? && (job.Dispatched? ==> job.accepted == s.jobs[j].accepted)
    requires !RecordPublish(s.(jobs := s.jobs - {j}), s.jobs[j].id, notify, holder, sent).1
    ensures InvFor(RecordPublish(s.(jobs := s.jobs - {j}), s.jobs[j].id, notify, holder, sent).0.(jobs := s.jobs[j := job]), id, cfg)
  {
    OpenUpdate(s.jobs, j, job, id, true);
    OpenUpdate(s.jobs, j, job, id, false);
  }

  lemma RecordKeepsInv(s: State, a: Action, id: nat, w: World, cfg: Config)
    requires InvFor(s, id, cfg) && a.Record? && Step(s, a, w, cfg).Some?
    ensures InvFor(Step(s, a, w, cfg).value, id, cfg)
  {
    var done := s.(jobs := s.jobs - {a.j});
    match s.jobs[a.j]
    case Planned(x, attempts, plan) =>
      if !plan.Deposit? {
        FailKeepsInv(s, a.j, id, attempts, "NOT_NOTIFIABLE", None, a.now, cfg);
      } else if RecordPublish(done, x, true, a.holder, false).1 {
        PublishKeepsInv(s, a.j, id, true, a.holder, false, cfg);
      } else {
        RetryKeepsInv(s, a.j, id, true, a.holder, false, Planned(x, attempts, Silent), cfg);
      }
    case Dispatched(x, attempts, accepted, inAccount) =>
      if !accepted {
        FailKeepsInv(s, a.j, id, attempts, "DISPATCH_FAILED", Some(false), a.now, cfg);
      } else if RecordPublish(done, x, inAccount, a.holder, true).1 {
        PublishKeepsInv(s, a.j, id, inAccount, a.holder, true, cfg);
      } else {
        RetryKeepsInv(s, a.j, id, inAccount, a.holder, true, Dispatched(x, attempts, true, false), cfg);
      }
    case _ =>
  }

  lemma StepKeepsInv(s: State, a: Action, id: nat, w: World, cfg: Config)
    requires InvFor(s, id, cfg) && Step(s, a, w, cfg).Some?
    ensures InvFor(Step(s, a, w, cfg).value, id, cfg)
  {
    match a
    case Enqueue(_, _, _, _, _) => EnqueueKeepsInv(s, a, id, w, cfg);
    case Take(_, _, _) => TakeKeepsInv(s, a, id, w, cfg);
    case ReadFingerprint(j) => FingerprintKeepsInv(s, j, id, w, cfg);
    case ReadValue(_) => ValueKeepsInv(s, a, id, w, cfg);
    case Dispatch(_, _) => DispatchKeepsInv(s, a, id, w, cfg);
    case Record(_, _, _) => RecordKeepsInv(s, a, id, w, cfg);
    case Crash(_) => CrashKeepsInv(s, a, id, w, cfg);
    case ChangeLine(_, _) => QuietKeepsInv(s, Step(s, a, w, cfg).value, id, cfg);
    case Erase(_) => QuietKeepsInv(s, Step(s, a, w, cfg).value, id, cfg);
  }

  // ---------------------------------------------------------------------------
  // Whole runs
  // ---------------------------------------------------------------------------

  ghost predicate Reaches(s: State, acts: seq<Action>, e: State, w: World, cfg: Config)
    decreases |acts|
  {
    if acts == [] then s == e
    else Step(s, acts[0], w, cfg).Some? && Reaches(Step(s, acts[0], w, cfg).value, acts[1..], e, w, cfg)
  }

  const BOOT := State(Store(map[], map[]), Registry(map[], {}), map[], [])

  lemma BootInv(id: nat, cfg: Config)
    ensures InvFor(BOOT, id, cfg)
  {
    assert Open(BOOT.jobs, id, true) == {} && Open(BOOT.jobs, id, false) == {};
  }

  lemma {:induction false} RunKeepsInv(s: State, acts: seq<Action>, e: State, id: nat, w: World, cfg: Config)
    requires InvFor(s, id, cfg) && Reaches(s, acts, e, w, cfg)
    ensures InvFor(e, id, cfg)
    decreases |acts|
  {
    if acts != [] {
      StepKeepsInv(s, acts[0], id, w, cfg);
      RunKeepsInv(Step(s, acts[0], w, cfg).value, acts[1..], e, id, w, cfg);
    }
  }

  /**
    Whatever crashes and expired leases a run sees: an event dies at exactly the maximum of
    recorded failures, is published by at most one recorded publication and never both; and
    each send ended in a recorded verdict, in a crash, in a verdict come too late, or is still
    waiting for one.
   */
  lemma EventLife(acts: seq<Action>, e: State, id: nat, w: World, cfg: Config)
    requires Reaches(BOOT, acts, e, w, cfg)
    ensures InvFor(e, id, cfg)
    ensures Published(e.log, id) <= 1 && Failures(e.log, id) <= cfg.maxAttempts
    ensures id in e.store.rows ==>
              && (e.store.rows[id].status == FAILED <==> Failures(e.log, id) == cfg.maxAttempts)
              && (e.store.rows[id].status == PUBLISHED <==> Published(e.log, id) == 1)
  {
    BootInv(id, cfg);
    RunKeepsInv(BOOT, acts, e, id, w, cfg);
  }

  /** Every accepted send beyond the first is a crash, a verdict come too late, or one still to be written. */
  lemma ExtraSendsAreAccounted(acts: seq<Action>, e: State, id: nat, w: World, cfg: Config)
    requires Reaches(BOOT, acts, e, w, cfg)
    ensures Count(e.log, Sends(true), id) <=
              1 + Count(e.log, Losses(true), id) + Count(e.log, Stales(true), id) + |Open(e.jobs, id, true)|
    ensures Count(e.log, Sends(false), id) <=
              cfg.maxAttempts + Count(e.log, Losses(false), id) + Count(e.log, Stales(false), id) + |Open(e.jobs, id, false)|
  {
    EventLife(acts, e, id, w, cfg);
  }

  lemma StepFreezes(s: State, a: Action, id: nat, w: World, cfg: Config)
    requires id in s.store.rows && s.store.rows[id].status != Status.PENDING && Step(s, a, w, cfg).Some?
    ensures id in Step(s, a, w, cfg).value.store.rows
    ensures Step(s, a, w, cfg).value.store.rows[id] == s.store.rows[id]
  {
  }

  /** PUBLISHED and FAILED are for ever: the row never changes again. */
  lemma {:induction false} SettledIsForEver(s: State, acts: seq<Action>, e: State, id: nat, w: World, cfg: Config)
    requires id in s.store.rows && s.store.rows[id].status != Status.PENDING && Reaches(s, acts, e, w, cfg)
    ensures id in e.store.rows && e.store.rows[id] == s.store.rows[id]
    decreases |acts|
  {
    if acts != [] {
      StepFreezes(s, acts[0], id, w, cfg);
      SettledIsForEver(Step(s, acts[0], w, cfg).value, acts[1..], e, id, w, cfg);
    }
  }

  // ---------------------------------------------------------------------------
  // Runs without crashes, whose leases outlast the handling
  // ---------------------------------------------------------------------------

  ghost predicate Held(s: State, id: nat) {
    exists j <- s.jobs :: s.jobs[j].id == id
  }

  /** Nobody crashes, and no event is taken again while a worker still holds it. */
  ghost predicate Orderly(s: State, acts: seq<Action>, w: World, cfg: Config)
    decreases |acts|
  {
    acts != [] ==>
      && !acts[0].Crash?
      && (acts[0].Take? ==> !Held(s, acts[0].id))
      && (Step(s, acts[0], w, cfg).Some? ==> Orderly(Step(s, acts[0], w, cfg).value, acts[1..], w, cfg))
  }

  /** At most one worker holds the event, and while one does it is pending; nothing was lost or stale. */
  ghost predicate OneHolder(s: State, id: nat) { HeldByOne(s, id) && NothingLost(s.log, id) }

  ghost predicate HeldByOne(s: State, id: nat) {
    && (forall i, j | i in s.jobs && j in s.jobs && s.jobs[i].id == id && s.jobs[j].id == id :: i == j)
    && (Held(s, id) ==> id in s.store.rows && s.store.rows[id].status == Status.PENDING)
  }

  ghost predicate NothingLost(log: seq<Entry>, id: nat) {
    forall b :: Count(log, Losses(b), id) == Count(log, Stales(b), id) == 0
  }

  lemma StillNothingLost(log: seq<Entry>, e: Entry, id: nat)
    requires NothingLost(log, id) && !((e.Lost? || e.Stale?) && e.id == id)
    ensures NothingLost(log + [e], id)
  {
    forall b ensures Count(log + [e], Losses(b), id) == Count(log + [e], Stales(b), id) == 0 {
      CountSnoc(log, e, Losses(b), id);
      CountSnoc(log, e, Stales(b), id);
    }
  }

  lemma TakeKeepsOneHolder(s: State, a: Action, id: nat, w: World, cfg: Config)
    requires OneHolder(s, id) && a.Take? && Step(s, a, w, cfg).Some? && !Held(s, a.id)
    ensures OneHolder(Step(s, a, w, cfg).value, id)
  {
  }

  /** The steps that keep every job's event, and every status. */
  lemma OrderlyWork(s: State, a: Action, id: nat, w: World, cfg: Config)
    requires OneHolder(s, id) && (a.ReadFingerprint? || a.ReadValue? || a.Dispatch?) && Step(s, a, w, cfg).Some?
    ensures OneHolder(Step(s, a, w, cfg).value, id)
  {
    var e := Step(s, a, w, cfg).value;
    assert NothingLost(e.log, id) by {
      if e.log != s.log {
        assert e.log == s.log + [e.log[|s.log|]];
        StillNothingLost(s.log, e.log[|s.log|], id);
      }
    }
    assert HeldByOne(e, id) by {
      forall j <- e.jobs ensures j in s.jobs && s.jobs[j].id == e.jobs[j].id {}
    }
  }

  /** A verdict only touches the row its job held, and the job goes unless the row stays. */
  lemma RecordOwnRow(s: State, a: Action, w: World, cfg: Config)
    requires a.Record? && Step(s, a, w, cfg).Some?
    ensures
      var e := Step(s, a, w, cfg).value;
      && a.j in s.jobs
      && (forall j <- e.jobs :: j in s.jobs && e.jobs[j].id == s.jobs[j].id)
      && (forall id <- s.store.rows :: id in e.store.rows && (id != s.jobs[a.j].id ==> e.store.rows[id] == s.store.rows[id]))
      && (a.j in e.jobs ==> e.store == s.store)
  {
  }

  lemma OrderlyRecordHolders(s: State, a: Action, id: nat, w: World, cfg: Config)
    requires HeldByOne(s, id) && a.Record? && Step(s, a, w, cfg).Some?
    ensures HeldByOne(Step(s, a, w, cfg).value, id)
  {
    var e := Step(s, a, w, cfg).value;
    RecordOwnRow(s, a, w, cfg);
    if Held(e, id) {
      var j :| j in e.jobs && e.jobs[j].id == id;
      assert Held(s, id) && (j != a.j ==> s.jobs[a.j].id != id);
    }
  }

  /** A verdict never comes too late while the event is held. */
  lemma OrderlyRecordInTime(s: State, a: Action, id: nat, w: World, cfg: Config)
    requires OneHolder(s, id) && a.Record? && Step(s, a, w, cfg).Some?
    ensures NothingLost(Step(s, a, w, cfg).value.log, id)
  {
    var e := Step(s, a, w, cfg).value;
    if s.jobs[a.j].id == id { assert Held(s, id); }
    if e.log != s.log {
      assert e.log == s.log + [e.log[|s.log|]];
      StillNothingLost(s.log, e.log[|s.log|], id);
    }
  }

  lemma OrderlyRecord(s: State, a: Action, id: nat, w: World, cfg: Config)
    requires OneHolder(s, id) && a.Record? && Step(s, a, w, cfg).Some?
    ensures OneHolder(Step(s, a, w, cfg).value, id)
  {
    OrderlyRecordHolders(s, a, id, w, cfg);
    OrderlyRecordInTime(s, a, id, w, cfg);
  }

  lemma OrderlyStep(s: State, a: Action, id: nat, w: World, cfg: Config)
    requires OneHolder(s, id) && Step(s, a, w, cfg).Some?
    requires !a.Crash? && (a.Take? ==> !Held(s, a.id))
    ensures OneHolder(Step(s, a, w, cfg).value, id)
  {
    match a
    case Take(_, _, _) => TakeKeepsOneHolder(s, a, id, w, cfg);
    case ReadFingerprint(_) => OrderlyWork(s, a, id, w, cfg);
    case ReadValue(_) => OrderlyWork(s, a, id, w, cfg);
    case Dispatch(_, _) => OrderlyWork(s, a, id, w, cfg);
    case Record(_, _, _) => OrderlyRecord(s, a, id, w, cfg);
    case _ =>
  }

  lemma {:induction false} OrderlyRun(s: State, acts: seq<Action>, e: State, id: nat, w: World, cfg: Config)
    requires OneHolder(s, id) && Reaches(s, acts, e, w, cfg) && Orderly(s, acts, w, cfg)
    ensures OneHolder(e, id)
    decreases |acts|
  {
    if acts != [] {
      OrderlyStep(s, acts[0], id, w, cfg);
      OrderlyRun(Step(s, acts[0], w, cfg).value, acts[1..], e, id, w, cfg);
    }
  }

  lemma OpenAtMostOne(s: State, id: nat, accepted: bool)
    requires OneHolder(s, id)
    ensures |Open(s.jobs, id, accepted)| <= 1
    ensures Open(s.jobs, id, accepted) != {} ==> Open(s.jobs, id, !accepted) == {} && Held(s, id)
  {
    var open := Open(s.jobs, id, accepted);
    if open != {} {
      var j :| j in open;
      assert open == {j};
    }
  }

  /** In such a run an event is sent at most as often as it may be attempted, and is accepted at most once. */
  lemma OrderlyRunsSendOnce(acts: seq<Action>, e: State, id: nat, w: World, cfg: Config)
    requires Reaches(BOOT, acts, e, w, cfg) && Orderly(BOOT, acts, w, cfg)
    ensures Count(e.log, Sends(true), id) <= 1
    ensures Count(e.log, Sends(true), id) + Count(e.log, Sends(false), id) <= cfg.maxAttempts
  {
    EventLife(acts, e, id, w, cfg);
    OrderlyRun(BOOT, acts, e, id, w, cfg);
    OpenAtMostOne(e, id, true);
    OpenAtMostOne(e, id, false);
  }

  // ---------------------------------------------------------------------------
  // Who is written to
  // ---------------------------------------------------------------------------

  /** The event was looked up and this row, ACTIVE at that moment, is what was found. */
  ghost predicate LookedUp(log: seq<Entry>, id: nat, row: Claim) {
    && row.status == VerifiedAddresses.ACTIVE
    && exists i, claim :: 0 <= i < |log| && log[i] == Looked(id, claim, row)
  }

  predicate FirstChannel(policy: Policy, channel: string) {
    policy.allowedChannels != [] && channel == policy.allowedChannels[0]
  }

  /** A send this event's policy and this claim row allow. */
  predicate Rightful(st: Store, id: nat, target: Target, row: Claim, w: World) {
    && id in st.rows
    && FirstChannel(w.policies(st.rows[id].eventType), target.channel)
    && w.crypto.fingerprint(row.hmacKeyId, target.address) == Some(row.phoneHmac)
  }

  ghost predicate JobWitnessed(s: State, j: nat, w: World)
    requires j in s.jobs
  {
    match s.jobs[j]
    case HalfRead(id, _, row) => row.Some? ==> LookedUp(s.log, id, row.value)
    case Planned(id, _, plan) =>
      plan.External? ==> LookedUp(s.log, id, plan.row) && Rightful(s.store, id, plan.target, plan.row, w)
    case _ => true
  }

  ghost predicate SendWitnessed(s: State, n: nat, w: World)
    requires n < |s.log|
  {
    s.log[n].Sent? ==>
      && LookedUp(s.log[..n], s.log[n].id, s.log[n].row)
      && Rightful(s.store, s.log[n].id, s.log[n].target, s.log[n].row, w)
  }

  ghost predicate Witnessed(s: State, w: World) {
    && (forall j <- s.jobs :: JobWitnessed(s, j, w))
    && (forall n :: 0 <= n < |s.log| ==> SendWitnessed(s, n, w))
  }

  /** Logs grow, and an event keeps its type. */
  ghost predicate Grows(s: State, e: State) {
    && s.log <= e.log
    && forall id <- s.store.rows :: id in e.store.rows && e.store.rows[id].eventType == s.store.rows[id].eventType
  }

  lemma RecordGrows(s: State, a: Action, w: World, cfg: Config)
    requires a.Record? && Step(s, a, w, cfg).Some?
    ensures Grows(s, Step(s, a, w, cfg).value)
  {
  }

  lemma StepGrows(s: State, a: Action, w: World, cfg: Config)
    requires Step(s, a, w, cfg).Some?
    ensures Grows(s, Step(s, a, w, cfg).value)
  {
    if a.Record? { RecordGrows(s, a, w, cfg); }
  }

  lemma LookedUpGrows(log: seq<Entry>, more: seq<Entry>, id: nat, row: Claim)
    requires LookedUp(log, id, row) && log <= more
    ensures LookedUp(more, id, row)
  {
    var i, claim :| 0 <= i < |log| && log[i] == Looked(id, claim, row);
    assert more[i] == Looked(id, claim, row);
  }

  lemma JobGrows(s: State, e: State, j: nat, w: World)
    requires j in s.jobs && j in e.jobs && e.jobs[j] == s.jobs[j] && JobWitnessed(s, j, w) && Grows(s, e)
    ensures JobWitnessed(e, j, w)
  {
    match s.jobs[j]
    case HalfRead(id, _, row) => if row.Some? { LookedUpGrows(s.log, e.log, id, row.value); }
    case Planned(id, _, plan) => if plan.External? { LookedUpGrows(s.log, e.log, id, plan.row); }
    case _ =>
  }

  lemma SendGrows(s: State, e: State, n: nat, w: World)
    requires n < |s.log| && SendWitnessed(s, n, w) && Grows(s, e)
    ensures SendWitnessed(e, n, w)
  {
    assert e.log[..n] == s.log[..n];
  }

  /** The job a step moves is witnessed afterwards. */
  lemma MovedJob(s: State, a: Action, j: nat, w: World, cfg: Config)
    requires Witnessed(s, w) && Step(s, a, w, cfg).Some?
    requires
      var e := Step(s, a, w, cfg).value;
      j in e.jobs && (j in s.jobs ==> e.jobs[j] != s.jobs[j])
    ensures JobWitnessed(Step(s, a, w, cfg).value, j, w)
  {
    var e := Step(s, a, w, cfg).value;
    match a
    case ReadFingerprint(_) =>
      if e.jobs[j].row.Some? { assert e.log[|s.log|].row == e.jobs[j].row.value; }
    case ReadValue(_) => assert JobWitnessed(s, j, w);
    case _ =>
  }

  lemma StepKeepsWitnessed(s: State, a: Action, w: World, cfg: Config)
    requires Witnessed(s, w) && Step(s, a, w, cfg).Some?
    ensures Witnessed(Step(s, a, w, cfg).value, w)
  {
    var e := Step(s, a, w, cfg).value;
    StepGrows(s, a, w, cfg);
    forall j <- e.jobs ensures JobWitnessed(e, j, w) {
      if j in s.jobs && e.jobs[j] == s.jobs[j] { JobGrows(s, e, j, w); } else { MovedJob(s, a, j, w, cfg); }
    }
    forall n | 0 <= n < |e.log| ensures SendWitnessed(e, n, w) {
      if n < |s.log| {
        SendGrows(s, e, n, w);
      } else if e.log[n].Sent? {
        assert e.log[..n] == s.log;
        assert a.Dispatch? && JobWitnessed(s, a.j, w);
      }
    }
  }

  lemma {:induction false} RunKeepsWitnessed(s: State, acts: seq<Action>, e: State, w: World, cfg: Config)
    requires Witnessed(s, w) && Reaches(s, acts, e, w, cfg)
    ensures Witnessed(e, w)
    decreases |acts|
  {
    if acts != [] {
      StepKeepsWitnessed(s, acts[0], w, cfg);
      RunKeepsWitnessed(Step(s, acts[0], w, cfg).value, acts[1..], e, w, cfg);
    }
  }

  /**
    Over all runs in which lines change hands: every send went to a phone whose fingerprint is
    that of a claim found ACTIVE for this very event, by the first channel of its policy.
   */
  lemma SendsAreWitnessed(acts: seq<Action>, e: State, n: nat, w: World, cfg: Config)
    requires Reaches(BOOT, acts, e, w, cfg) && n < |e.log| && e.log[n].Sent?
    ensures LookedUp(e.log[..n], e.log[n].id, e.log[n].row)
    ensures Rightful(e.store, e.log[n].id, e.log[n].target, e.log[n].row, w)
  {
    RunKeepsWitnessed(BOOT, acts, e, w, cfg);
    assert SendWitnessed(e, n, w);
  }

  /** Under a keyed fingerprint that tells phones apart, the phone written to is the one the claim was built for. */
  lemma SendsReachTheirPhone(acts: seq<Action>, e: State, n: nat, phone: string, w: World, cfg: Config)
    requires Reaches(BOOT, acts, e, w, cfg) && n < |e.log| && e.log[n].Sent?
    requires w.crypto.fingerprint(e.log[n].row.hmacKeyId, phone) == Some(e.log[n].row.phoneHmac)
    requires TellsApart(w.crypto)
    ensures e.log[n].target.address == phone
  {
    SendsAreWitnessed(acts, e, n, w, cfg);
  }

  /** An event whose policy lists no channel is never sent. */
  lemma SilenceIsNeverBroken(acts: seq<Action>, e: State, id: nat, w: World, cfg: Config)
    requires Reaches(BOOT, acts, e, w, cfg)
    requires id in e.store.rows && w.policies(e.store.rows[id].eventType).allowedChannels == []
    ensures forall n :: 0 <= n < |e.log| && e.log[n].Sent? ==> e.log[n].id != id
  {
    forall n | 0 <= n < |e.log| && e.log[n].Sent? ensures e.log[n].id != id {
      SendsAreWitnessed(acts, e, n, w, cfg);
    }
  }

  /** The event's line is gone, and no worker got past its second read while it was still there. */
  ghost predicate LineGone(s: State, id: nat) {
    && id in s.store.rows && s.store.rows[id].claim.Some?
    && s.store.rows[id].claim.value in s.registry.claims
    && s.registry.claims[s.store.rows[id].claim.value].status == VerifiedAddresses.REVOKED
    && forall j <- s.jobs :: s.jobs[j].id == id && s.jobs[j].Planned? ==> !s.jobs[j].plan.External?
  }

  lemma RecordAfterLineGone(s: State, a: Action, id: nat, w: World, cfg: Config)
    requires LineGone(s, id) && a.Record? && Step(s, a, w, cfg).Some?
    ensures LineGone(Step(s, a, w, cfg).value, id)
  {
  }

  lemma StepAfterLineGone(s: State, a: Action, id: nat, w: World, cfg: Config)
    requires LineGone(s, id) && Step(s, a, w, cfg).Some?
    ensures LineGone(Step(s, a, w, cfg).value, id)
  {
    if a.Record? { RecordAfterLineGone(s, a, id, w, cfg); }
  }

  /** Only a dispatch appends a send, and it is one of an event that was planned for it. */
  lemma OnlyDispatchSends(s: State, a: Action, id: nat, w: World, cfg: Config)
    requires LineGone(s, id) && Step(s, a, w, cfg).Some?
    ensures forall b :: Count(Step(s, a, w, cfg).value.log, Sends(b), id) == Count(s.log, Sends(b), id)
  {
    var e := Step(s, a, w, cfg).value;
    if e.log != s.log {
      var added := e.log[|s.log|];
      assert e.log == s.log + [added];
      assert !(added.Sent? && added.id == id);
      forall b { CountSnoc(s.log, added, Sends(b), id); }
    }
  }

  /** A line that was taken back is never written to again for the event that named it. */
  lemma {:induction false} RevokedLineIsNeverWrittenTo(s: State, acts: seq<Action>, e: State, id: nat, w: World, cfg: Config)
    requires LineGone(s, id) && Reaches(s, acts, e, w, cfg)
    ensures forall b :: Count(e.log, Sends(b), id) == Count(s.log, Sends(b), id)
    decreases |acts|
  {
    if acts != [] {
      StepAfterLineGone(s, acts[0], id, w, cfg);
      OnlyDispatchSends(s, acts[0], id, w, cfg);
      RevokedLineIsNeverWrittenTo(Step(s, acts[0], w, cfg).value, acts[1..], e, id, w, cfg);
    }
  }
}
