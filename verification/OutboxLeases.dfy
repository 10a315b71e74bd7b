/**
  What the lease of a taken event is worth.  Runs are timed here: while every worker is done
  with its events before their leases are over, none of them is taken by another, and an event
  is accepted at most once.  A lease that runs out first is all it takes to send it twice.
 */
module OutboxLeases {
  import opened Wrappers
  import opened Outboxes
  import opened VerifiedAddresses
  import opened OutboxRuns

  datatype Timed = At(when: int, act: Action)

  function Acts(timed: seq<Timed>): (r: seq<Action>)
    ensures |r| == |timed|
  {
    if timed == [] then [] else [timed[0].act] + Acts(timed[1..])
  }

  /** The statements that read the clock read this one. */
  predicate OnTheClock(t: Timed) {
    match t.act
    case Enqueue(_, _, _, _, now) => now == t.when
    case Take(_, _, now) => now == t.when
    case Record(_, _, now) => now == t.when
    case _ => true
  }

  /** When each job took its event. */
  function SinceAfter(since: map<nat, int>, a: Action): map<nat, int> {
    if a.Take? then since[a.j := a.now] else since
  }

  /** No job that is open at `when` has outlived its lease. */
  ghost predicate WithinLeases(s: State, since: map<nat, int>, when: int, cfg: Config) {
    forall j <- s.jobs :: j in since ==> when < since[j] + cfg.leaseSeconds
  }

  /** The clock never goes back, nobody crashes, and everything happens within the leases then open. */
  ghost predicate Timely(s: State, since: map<nat, int>, clock: int, timed: seq<Timed>, w: World, cfg: Config)
    decreases |timed|
  {
    timed != [] ==>
      var t := timed[0];
      && clock <= t.when && OnTheClock(t) && !t.act.Crash?
      && WithinLeases(s, since, t.when, cfg)
      && (Step(s, t.act, w, cfg).Some? ==>
            Timely(Step(s, t.act, w, cfg).value, SinceAfter(since, t.act), t.when, timed[1..], w, cfg))
  }

  /** A job's event is pending, and due again when the job's lease is over. */
  ghost predicate Leased(s: State, since: map<nat, int>, j: nat, cfg: Config)
    requires j in s.jobs
  {
    && j in since
    && s.jobs[j].id in s.store.rows
    && s.store.rows[s.jobs[j].id].status == Status.PENDING
    && s.store.rows[s.jobs[j].id].nextAttemptAt == since[j] + cfg.leaseSeconds
  }

  ghost predicate AllLeased(s: State, since: map<nat, int>, cfg: Config) {
    && (forall j <- s.jobs :: Leased(s, since, j, cfg))
    && (forall i, j | i in s.jobs && j in s.jobs && s.jobs[i].id == s.jobs[j].id :: i == j)
  }

  /** A held event can be taken again exactly when its lease is over. */
  lemma TakenAgainIff(s: State, since: map<nat, int>, j: nat, other: nat, now: int, w: World, cfg: Config)
    requires AllLeased(s, since, cfg) && j in s.jobs && other !in s.jobs
    ensures Step(s, Take(other, s.jobs[j].id, now), w, cfg).Some? <==> now >= since[j] + cfg.leaseSeconds
  {
    assert Leased(s, since, j, cfg);
  }

  lemma TimelyTakeIsFree(s: State, since: map<nat, int>, a: Action, w: World, cfg: Config)
    requires AllLeased(s, since, cfg) && a.Take? && Step(s, a, w, cfg).Some? && WithinLeases(s, since, a.now, cfg)
    ensures !Held(s, a.id)
  {
    forall j <- s.jobs ensures s.jobs[j].id != a.id { assert Leased(s, since, j, cfg); }
  }

  lemma TakeLeases(s: State, since: map<nat, int>, a: Action, w: World, cfg: Config)
    requires AllLeased(s, since, cfg) && a.Take? && Step(s, a, w, cfg).Some? && !Held(s, a.id)
    ensures AllLeased(Step(s, a, w, cfg).value, SinceAfter(since, a), cfg)
  {
    var e := Step(s, a, w, cfg).value;
    forall j <- e.jobs ensures Leased(e, SinceAfter(since, a), j, cfg) {
      if j != a.j { assert Leased(s, since, j, cfg) && s.jobs[j].id != a.id; }
    }
  }

  /** The steps that keep jobs on their events and rows as they are. */
  lemma WorkKeepsLeases(s: State, since: map<nat, int>, a: Action, w: World, cfg: Config)
    requires AllLeased(s, since, cfg) && Step(s, a, w, cfg).Some?
    requires !a.Take? && !a.Record? && !a.Crash?
    ensures AllLeased(Step(s, a, w, cfg).value, since, cfg)
  {
    var e := Step(s, a, w, cfg).value;
    forall j <- e.jobs ensures j in s.jobs && e.jobs[j].id == s.jobs[j].id && Leased(e, since, j, cfg) {
      assert Leased(s, since, j, cfg);
    }
  }

  lemma RecordKeepsLeases(s: State, since: map<nat, int>, a: Action, w: World, cfg: Config)
    requires AllLeased(s, since, cfg) && a.Record? && Step(s, a, w, cfg).Some?
    ensures AllLeased(Step(s, a, w, cfg).value, since, cfg)
  {
    var e := Step(s, a, w, cfg).value;
    RecordOwnRow(s, a, w, cfg);
    forall j <- e.jobs ensures Leased(e, since, j, cfg) {
      assert Leased(s, since, j, cfg);
      if j != a.j { assert s.jobs[j].id != s.jobs[a.j].id; }
    }
  }

  lemma StepKeepsLeases(s: State, since: map<nat, int>, a: Action, w: World, cfg: Config)
    requires AllLeased(s, since, cfg) && Step(s, a, w, cfg).Some? && !a.Crash?
    requires a.Take? ==> !Held(s, a.id)
    ensures AllLeased(Step(s, a, w, cfg).value, SinceAfter(since, a), cfg)
  {
    if a.Take? { TakeLeases(s, since, a, w, cfg); }
    else if a.Record? { RecordKeepsLeases(s, since, a, w, cfg); }
    else { WorkKeepsLeases(s, since, a, w, cfg); }
  }

  /** Within the leases, nobody takes an event another worker holds. */
  lemma {:induction false} TimelyIsOrderly(s: State, since: map<nat, int>, clock: int, timed: seq<Timed>, e: State,
                                           w: World, cfg: Config)
    requires AllLeased(s, since, cfg) && Reaches(s, Acts(timed), e, w, cfg) && Timely(s, since, clock, timed, w, cfg)
    ensures Orderly(s, Acts(timed), w, cfg)
    decreases |timed|
  {
    if timed != [] {
      var t := timed[0];
      assert Acts(timed)[0] == t.act && Acts(timed)[1..] == Acts(timed[1..]);
      if t.act.Take? { TimelyTakeIsFree(s, since, t.act, w, cfg); }
      StepKeepsLeases(s, since, t.act, w, cfg);
      TimelyIsOrderly(Step(s, t.act, w, cfg).value, SinceAfter(since, t.act), t.when, timed[1..], e, w, cfg);
    }
  }

  /**
    While nobody crashes and every worker is done with its events before their leases are over,
    an event is sent at most as often as it may be attempted, and accepted at most once.
   */
  lemma TimelyRunsSendOnce(timed: seq<Timed>, start: int, e: State, id: nat, w: World, cfg: Config)
    requires Reaches(BOOT, Acts(timed), e, w, cfg) && Timely(BOOT, map[], start, timed, w, cfg)
    ensures Count(e.log, Sends(true), id) <= 1
    ensures Count(e.log, Sends(true), id) + Count(e.log, Sends(false), id) <= cfg.maxAttempts
  {
    TimelyIsOrderly(BOOT, map[], start, timed, e, w, cfg);
    OrderlyRunsSendOnce(Acts(timed), e, id, w, cfg);
  }

  // ---------------------------------------------------------------------------
  // A lease that runs out
  // ---------------------------------------------------------------------------

  /** A line whose columns resolve to `phone`. */
  predicate Reachable(r: Registry, line: nat, phone: string, w: World) {
    Resolve(r, r, line, true, w.crypto) == Resolved(phone)
  }

  /** The event is due, names a line that resolves, and its policy lists a channel. */
  predicate Sendable(s: State, id: nat, line: nat, phone: string, now: int, w: World) {
    && id in s.store.rows && Due(s.store.rows[id], now) && s.store.rows[id].claim == Some(line)
    && Reachable(s.registry, line, phone, w)
    && w.policies(s.store.rows[id].eventType).allowedChannels != []
  }

  /** Taken, resolved, sent and accepted, with nothing in between. */
  function TakeAndSend(j: nat, id: nat, now: int): seq<Action> {
    [Take(j, id, now), ReadFingerprint(j), ReadValue(j), Dispatch(j, true)]
  }

  lemma FourSteps(s: State, acts: seq<Action>, s1: State, s2: State, s3: State, e: State, w: World, cfg: Config)
    requires |acts| == 4
    requires Step(s, acts[0], w, cfg) == Some(s1) && Step(s1, acts[1], w, cfg) == Some(s2)
    requires Step(s2, acts[2], w, cfg) == Some(s3) && Step(s3, acts[3], w, cfg) == Some(e)
    ensures Reaches(s, acts, e, w, cfg)
  {
    assert acts[1..][1..] == acts[2..] && acts[2..][1..] == acts[3..] && acts[3..][1..] == [];
    assert Reaches(s3, acts[3..], e, w, cfg);
    assert Reaches(s2, acts[2..], e, w, cfg);
    assert Reaches(s1, acts[1..], e, w, cfg);
  }

  /** The three steps before a send: taken, and resolved by two reads of the same columns. */
  lemma OneWorkerResolves(s: State, j: nat, id: nat, line: nat, phone: string, now: int, w: World, cfg: Config)
    returns (s1: State, s2: State, s3: State)
    requires j !in s.jobs && Sendable(s, id, line, phone, now, w)
    ensures Step(s, Take(j, id, now), w, cfg) == Some(s1)
    ensures Step(s1, ReadFingerprint(j), w, cfg) == Some(s2) && Step(s2, ReadValue(j), w, cfg) == Some(s3)
    ensures s3.log == s.log + [Looked(id, line, s.registry.claims[line])]
    ensures s3.jobs.Keys == s.jobs.Keys + {j} && s3.jobs[j].Planned? && s3.jobs[j].id == id && s3.jobs[j].plan.External?
    ensures Sendable(s3, id, line, phone, now + cfg.leaseSeconds, w)
  {
    ResolvedIff(s.registry, s.registry, line, w.crypto, phone);
    s1 := Step(s, Take(j, id, now), w, cfg).value;
    s2 := Step(s1, ReadFingerprint(j), w, cfg).value;
    s3 := Step(s2, ReadValue(j), w, cfg).value;
  }

  /** One worker alone gets a sendable event accepted; it stays pending, leased until `now + leaseSeconds`. */
  lemma OneWorkerSends(s: State, j: nat, id: nat, line: nat, phone: string, now: int, w: World, cfg: Config)
    returns (e: State)
    requires j !in s.jobs && Sendable(s, id, line, phone, now, w)
    ensures Reaches(s, TakeAndSend(j, id, now), e, w, cfg)
    ensures Count(e.log, Sends(true), id) == Count(s.log, Sends(true), id) + 1
    ensures e.jobs.Keys == s.jobs.Keys + {j}
    ensures Sendable(e, id, line, phone, now + cfg.leaseSeconds, w)
  {
    var s1, s2, s3 := OneWorkerResolves(s, j, id, line, phone, now, w, cfg);
    e := Step(s3, Dispatch(j, true), w, cfg).value;
    FourSteps(s, TakeAndSend(j, id, now), s1, s2, s3, e, w, cfg);
    CountSnoc(s.log, Looked(id, line, s.registry.claims[line]), Sends(true), id);
    CountSnoc(s3.log, Sent(id, s3.jobs[j].plan.target, s3.jobs[j].plan.row, true), Sends(true), id);
  }

  lemma {:induction false} ReachesConcat(s: State, a: seq<Action>, m: State, b: seq<Action>, e: State, w: World, cfg: Config)
    requires Reaches(s, a, m, w, cfg) && Reaches(m, b, e, w, cfg)
    ensures Reaches(s, a + b, e, w, cfg)
    decreases |a|
  {
    if a == [] {
      assert a + b == b;
    } else {
      assert (a + b)[0] == a[0] && (a + b)[1..] == a[1..] + b;
      ReachesConcat(Step(s, a[0], w, cfg).value, a[1..], m, b, e, w, cfg);
    }
  }

  /** A held event can be sent once more exactly when its holder's lease is over. */
  lemma SentAgainIff(s: State, since: map<nat, int>, j: nat, other: nat, line: nat, phone: string, now: int, w: World, cfg: Config)
    requires AllLeased(s, since, cfg) && j in s.jobs && other !in s.jobs
    requires s.jobs[j].id in s.store.rows && s.store.rows[s.jobs[j].id].claim == Some(line)
    requires Reachable(s.registry, line, phone, w)
    requires w.policies(s.store.rows[s.jobs[j].id].eventType).allowedChannels != []
    ensures
      var id := s.jobs[j].id;
      (exists e :: Reaches(s, TakeAndSend(other, id, now), e, w, cfg)
                   && Count(e.log, Sends(true), id) == Count(s.log, Sends(true), id) + 1)
      <==> now >= since[j] + cfg.leaseSeconds
  {
    var id := s.jobs[j].id;
    TakenAgainIff(s, since, j, other, now, w, cfg);
    if now >= since[j] + cfg.leaseSeconds {
      var e := OneWorkerSends(s, other, id, line, phone, now, w, cfg);
    } else {
      forall e ensures !Reaches(s, TakeAndSend(other, id, now), e, w, cfg) {
        assert TakeAndSend(other, id, now)[0] == Take(other, id, now);
      }
    }
  }

  /** An event on its way: enqueued on a line that then comes to hold `row`. */
  function Setting(id: nat, eventType: string, line: nat, row: Claim, now: int): seq<Action> {
    [Enqueue(id, eventType, row.person, Some(line), now), ChangeLine(line, row)]
  }

  lemma SetUp(id: nat, eventType: string, line: nat, row: Claim, phone: string, now: int, w: World, cfg: Config)
    returns (e: State)
    requires w.policies(eventType).allowedChannels != []
    requires Reachable(Registry(map[line := row], {}), line, phone, w)
    ensures Reaches(BOOT, Setting(id, eventType, line, row, now), e, w, cfg)
    ensures e.log == [] && e.jobs == map[] && Sendable(e, id, line, phone, now, w)
  {
    var acts := Setting(id, eventType, line, row, now);
    var s1 := Step(BOOT, acts[0], w, cfg).value;
    e := Step(s1, acts[1], w, cfg).value;
    assert acts[1..][1..] == [];
    assert Reaches(s1, acts[1..], e, w, cfg);
    assert e.registry == Registry(map[line := row], {});
  }

  /** Two workers, one lease apart. */
  function LateSecondWorker(id: nat, eventType: string, line: nat, row: Claim, now: int, cfg: Config): seq<Action> {
    Setting(id, eventType, line, row, now) + TakeAndSend(0, id, now) + TakeAndSend(1, id, now + cfg.leaseSeconds)
  }

  predicate NobodyCrashes(acts: seq<Action>) { forall i :: 0 <= i < |acts| ==> !acts[i].Crash? }

  lemma CrashFreeParts(a: seq<Action>, b: seq<Action>)
    requires NobodyCrashes(a) && NobodyCrashes(b)
    ensures NobodyCrashes(a + b)
  {
  }

  /** Three runs, one after the other. */
  lemma ThreeRuns(a: seq<Action>, s1: State, b: seq<Action>, s2: State, c: seq<Action>, e: State, w: World, cfg: Config)
    requires Reaches(BOOT, a, s1, w, cfg) && Reaches(s1, b, s2, w, cfg) && Reaches(s2, c, e, w, cfg)
    ensures Reaches(BOOT, a + b + c, e, w, cfg)
  {
    ReachesConcat(BOOT, a, s1, b, s2, w, cfg);
    ReachesConcat(BOOT, a + b, s2, c, e, w, cfg);
  }

  lemma LateRunCrashesNobody(id: nat, eventType: string, line: nat, row: Claim, now: int, cfg: Config)
    ensures NobodyCrashes(LateSecondWorker(id, eventType, line, row, now, cfg))
  {
    CrashFreeParts(Setting(id, eventType, line, row, now), TakeAndSend(0, id, now));
    CrashFreeParts(Setting(id, eventType, line, row, now) + TakeAndSend(0, id, now), TakeAndSend(1, id, now + cfg.leaseSeconds));
  }

  /**
    Nobody crashes and every address is rightful, yet an event is accepted twice: the first
    worker had not written its verdict when its lease ran out.
   */
  lemma ExpiredLeaseSendsTwice(id: nat, eventType: string, line: nat, row: Claim, phone: string, now: int, w: World, cfg: Config)
    requires w.policies(eventType).allowedChannels != []
    requires Reachable(Registry(map[line := row], {}), line, phone, w)
    ensures NobodyCrashes(LateSecondWorker(id, eventType, line, row, now, cfg))
    ensures exists e :: Reaches(BOOT, LateSecondWorker(id, eventType, line, row, now, cfg), e, w, cfg)
                        && Count(e.log, Sends(true), id) == 2
  {
    LateRunCrashesNobody(id, eventType, line, row, now, cfg);
    var late := now + cfg.leaseSeconds;
    var s0 := SetUp(id, eventType, line, row, phone, now, w, cfg);
    var s1 := OneWorkerSends(s0, 0, id, line, phone, now, w, cfg);
    var e := OneWorkerSends(s1, 1, id, line, phone, late, w, cfg);
    ThreeRuns(Setting(id, eventType, line, row, now), s0, TakeAndSend(0, id, now), s1, TakeAndSend(1, id, late), e, w, cfg);
  }
}
