/**
  The interleaved runs of SessionConcurrency as serial histories of the requests themselves:
  every `revokeAll` is one that sees all living sessions of its account when its turn comes.
 */
module SessionSerialization {
  import opened Wrappers
  import opened Sessions
  import opened SessionHistories
  import opened SessionConcurrency

  datatype Request = RevokeAllRequest(account: Id) | Other(op: Op)

  datatype Served = Served(request: Request, answer: Outcome)

  /** A sweep is logged with the sessions its statement saw; what was asked is a `revokeAll`. */
  function RequestOf(op: Op): Request { if op.RevokeSeen? then RevokeAllRequest(op.account) else Other(op) }

  /** The operation a request is, on the tables as it finds them. */
  function OpOf(db: Db, r: Request): Op {
    match r
    case RevokeAllRequest(account) => RevokeSeen(account, LiveSessionsOf(db, account))
    case Other(op) => op
  }

  function Serve(db: Db, r: Request, cfg: Config): (d: (Db, Outcome))
    requires Referential(db)
    ensures Referential(d.0)
  {
    match r
    case RevokeAllRequest(account) => RevokeAllTx(db, account)
    case Other(op) => Apply(db, op, cfg)
  }

  lemma ServeIsApply(db: Db, r: Request, cfg: Config)
    requires Referential(db)
    ensures Serve(db, r, cfg) == Apply(db, OpOf(db, r), cfg)
  {
  }

  function ServedAfter(db: Db, h: seq<Served>, cfg: Config): (d: Db)
    requires Referential(db)
    ensures Referential(d)
  {
    if h == [] then db else Serve(ServedAfter(db, h[..|h| - 1], cfg), h[|h| - 1].request, cfg).0
  }

  /** Every answer of the history is the one its request gets at its turn. */
  ghost predicate Truthful(db: Db, h: seq<Served>, cfg: Config)
    requires Referential(db)
  {
    h == [] ||
    var front, last := h[..|h| - 1], h[|h| - 1];
    Truthful(db, front, cfg) && last.answer == Serve(ServedAfter(db, front, cfg), last.request, cfg).1
  }

  /** No sweep with a memory, no refresh that met an exception, no login whose draw was taken. */
  predicate Clean(r: Served) {
    match r.request
    case RevokeAllRequest(_) => true
    case Other(op) =>
      && !op.RevokeSeen?
      && (op.Refresh? ==> !r.answer.Raised?)
      && (op.Open? ==> r.answer != Raised(UniqueViolation))
  }

  lemma ServedSnoc(db: Db, h: seq<Served>, r: Served, cfg: Config)
    requires Referential(db)
    ensures ServedAfter(db, h + [r], cfg) == Serve(ServedAfter(db, h, cfg), r.request, cfg).0
    ensures Truthful(db, h + [r], cfg) <==>
            Truthful(db, h, cfg) && r.answer == Serve(ServedAfter(db, h, cfg), r.request, cfg).1
  {
    assert (h + [r])[..|h + [r]| - 1] == h;
  }

  lemma {:induction false} ServedConcat(db: Db, h: seq<Served>, k: seq<Served>, cfg: Config)
    requires Referential(db)
    ensures ServedAfter(db, h + k, cfg) == ServedAfter(ServedAfter(db, h, cfg), k, cfg)
    ensures Truthful(db, h + k, cfg) <==> Truthful(db, h, cfg) && Truthful(ServedAfter(db, h, cfg), k, cfg)
    decreases |k|
  {
    if k == [] {
      assert h + k == h;
    } else {
      var front, last := k[..|k| - 1], k[|k| - 1];
      assert h + k == (h + front) + [last] && k == front + [last];
      ServedConcat(db, h, front, cfg);
      ServedSnoc(db, h + front, last, cfg);
      ServedSnoc(ServedAfter(db, h, cfg), front, last, cfg);
    }
  }

  lemma {:induction false} ServedWellFormed(db: Db, h: seq<Served>, cfg: Config)
    requires WellFormed(db)
    ensures WellFormed(ServedAfter(db, h, cfg))
  {
    if h != [] {
      var d := ServedAfter(db, h[..|h| - 1], cfg);
      ServedWellFormed(db, h[..|h| - 1], cfg);
      ServeIsApply(d, h[|h| - 1].request, cfg);
      ApplyWellFormed(d, OpOf(d, h[|h| - 1].request), cfg);
    }
  }

  // ---------------------------------------------------------------------------
  // Owners, and what lives
  // ---------------------------------------------------------------------------

  /** Sessions keep their owner, and a new one belongs to whoever logged in. */
  ghost predicate OwnersStay(db: Db, d: Db, op: Op) {
    && (forall s <- db.sessions :: s in d.sessions && d.sessions[s].account == db.sessions[s].account)
    && (forall s <- d.sessions :: s in db.sessions || (op.Open? && op.session == s && op.account == d.sessions[s].account))
  }

  lemma RefreshKeepsSessions(db: Db, h: TokenHash, now: int, draw: TokenHash, cfg: Config)
    requires WellFormed(db)
    ensures
      var d := RefreshTx(db, h, now, draw, cfg).0;
      && d.sessions.Keys == db.sessions.Keys
      && (forall s <- db.sessions :: d.sessions[s].account == db.sessions[s].account)
  {
    if draw in db.tokens { RefreshUnderUsedDraw(db, h, now, draw, cfg); } else { RefreshNeverRaises(db, h, now, draw, cfg); }
  }

  lemma OwnersAreForEver(db: Db, op: Op, cfg: Config)
    requires WellFormed(db)
    ensures OwnersStay(db, Apply(db, op, cfg).0, op)
  {
    if op.Refresh? { RefreshKeepsSessions(db, op.h, op.now, op.draw, cfg); }
  }

  /** Without a login of its own, an account's living sessions only become fewer. */
  lemma LivingShrink(db: Db, op: Op, account: Id, cfg: Config)
    requires WellFormed(db) && !(op.Open? && op.account == account)
    ensures LiveSessionsOf(Apply(db, op, cfg).0, account) <= LiveSessionsOf(db, account)
  {
    OwnersAreForEver(db, op, cfg);
    ApplyAges(db, op, cfg);
  }

  // ---------------------------------------------------------------------------
  // A sweep that no login overtook
  // ---------------------------------------------------------------------------

  /** The operation a step commits, if any. */
  function Committed(s: State, a: Action): Option<Op> {
    match a
    case Commit(x) =>
      if x in s.txs && s.txs[x].Written? then Some(Refresh(s.txs[x].h, s.txs[x].start, s.txs[x].draw)) else None
    case LogoutNow(account, sid) => Some(Logout(account, sid))
    case CommitSweep(x) =>
      if x in s.txs && s.txs[x].Sweeping? then Some(RevokeSeen(s.txs[x].account, s.txs[x].seen)) else None
    case OpenNow(account, sid, h, now) => Some(Open(account, sid, h, now))
    case DeactivateNow(account) => Some(Deactivate(account))
    case CreateAccount(account) => Some(NewAccount(account))
    case _ => None
  }

  /** A step writes nothing, or runs one operation on the committed tables and logs it. */
  lemma StepIsApply(s: State, a: Action, cfg: Config)
    requires Inv(s, cfg) && Step(s, a, cfg).Some?
    ensures
      var e := Step(s, a, cfg).value;
      match Committed(s, a)
      case None => (e.db, e.log, e.answers) == (s.db, s.log, s.answers)
      case Some(op) =>
        (e.db, e.log, e.answers) == (Apply(s.db, op, cfg).0, s.log + [op], s.answers + [Apply(s.db, op, cfg).1])
  {
    if a.Commit? { WorkspaceIsRefresh(s.db, s.txs[a.x], cfg); }
  }

  /** No login of the account, and the sweep neither commits nor gives up. */
  ghost predicate Undisturbing(acts: seq<Action>, x: nat, account: Id) {
    forall i :: 0 <= i < |acts| ==>
      && !(acts[i].OpenNow? && acts[i].account == account)
      && acts[i] != CommitSweep(x) && acts[i] != Rollback(x)
  }

  ghost predicate SawAll(s: State, x: nat, account: Id) {
    x in s.txs && s.txs[x].Sweeping? && s.txs[x].account == account && LiveSessionsOf(s.db, account) <= s.txs[x].seen
  }

  lemma StepKeepsSawAll(s: State, a: Action, x: nat, account: Id, cfg: Config)
    requires Inv(s, cfg) && SawAll(s, x, account) && Step(s, a, cfg).Some? && Undisturbing([a], x, account)
    ensures SawAll(Step(s, a, cfg).value, x, account)
  {
    var e := Step(s, a, cfg).value;
    assert [a][0] == a;
    assert x in e.txs && e.txs[x] == s.txs[x];
    StepIsApply(s, a, cfg);
    if Committed(s, a).Some? { LivingShrink(s.db, Committed(s, a).value, account, cfg); }
  }

  lemma {:induction false} RunKeepsSawAll(s: State, acts: seq<Action>, e: State, x: nat, account: Id, cfg: Config)
    requires Inv(s, cfg) && SawAll(s, x, account) && Reaches(s, acts, e, cfg) && Undisturbing(acts, x, account)
    ensures Inv(e, cfg) && SawAll(e, x, account)
    decreases |acts|
  {
    if acts != [] {
      assert [acts[0]][0] == acts[0];
      StepKeepsInv(s, acts[0], cfg);
      StepKeepsSawAll(s, acts[0], x, account, cfg);
      RunKeepsSawAll(Step(s, acts[0], cfg).value, acts[1..], e, x, account, cfg);
    }
  }

  lemma CommitOfSweep(e: State, x: nat, account: Id, cfg: Config)
    requires Inv(e, cfg) && SawAll(e, x, account) && Step(e, CommitSweep(x), cfg).Some?
    ensures
      var done := Step(e, CommitSweep(x), cfg).value;
      && done.log == e.log + [RevokeSeen(account, e.txs[x].seen)]
      && done.answers == e.answers + [RevokeAllTx(e.db, account).1]
      && done.db == RevokeAllTx(e.db, account).0
  {
    SweepIsRevokeAllIff(e.db, account, e.txs[x].seen);
  }

  /**
    In any run where no login of the account falls between a sweep's start and its commit, what
    is logged and answered is `revokeAll` at the place of the commit.
   */
  lemma SweepWithoutLoginIsRevokeAll(s: State, x: nat, account: Id, acts: seq<Action>, e: State, cfg: Config)
    requires Inv(s, cfg) && Step(s, BeginSweep(x, account), cfg).Some?
    requires Reaches(Step(s, BeginSweep(x, account), cfg).value, acts, e, cfg) && Undisturbing(acts, x, account)
    requires Referential(e.db) && Step(e, CommitSweep(x), cfg).Some?
    ensures
      var done := Step(e, CommitSweep(x), cfg).value;
      && done.log == e.log + [RevokeSeen(account, LiveSessionsOf(s.db, account))]
      && done.answers == e.answers + [RevokeAllTx(e.db, account).1]
      && done.db == RevokeAllTx(e.db, account).0
  {
    var begun := Step(s, BeginSweep(x, account), cfg).value;
    StepKeepsInv(s, BeginSweep(x, account), cfg);
    RunKeepsSawAll(begun, acts, e, x, account, cfg);
    KeepsSnapshot(begun, acts, e, x, account, cfg);
    CommitOfSweep(e, x, account, cfg);
  }

  lemma {:induction false} KeepsSnapshot(s: State, acts: seq<Action>, e: State, x: nat, account: Id, cfg: Config)
    requires x in s.txs && s.txs[x].Sweeping? && Reaches(s, acts, e, cfg) && Undisturbing(acts, x, account)
    ensures x in e.txs && e.txs[x] == s.txs[x]
    decreases |acts|
  {
    if acts != [] {
      var next := Step(s, acts[0], cfg).value;
      assert x in next.txs && next.txs[x] == s.txs[x];
      KeepsSnapshot(next, acts[1..], e, x, account, cfg);
    }
  }

  /** The requests of a log, in the order of commits. */
  function Requested(log: seq<Op>, answers: seq<Outcome>): (h: seq<Served>)
    requires |log| == |answers|
    ensures |h| == |log|
  {
    seq(|log|, i requires 0 <= i < |log| && |log| == |answers| => Served(RequestOf(log[i]), answers[i]))
  }

  /** The tables after one login of one account. */
  function LoggedIn(account: Id, sid: Id, h: TokenHash, now: int, cfg: Config): Db {
    var session := Session(account, now + cfg.sessionTtl, None);
    Db(map[account := true], map[sid := session], map[h := FreshToken(session, sid, now, cfg.refreshTtl)])
  }

  lemma FirstThree(account: Id, sid: Id, h: TokenHash, now: int, cfg: Config) returns (s1: State, s2: State, s3: State)
    ensures s1.db == s2.db == Db(map[account := true], map[], map[]) && s3.db == LoggedIn(account, sid, h, now, cfg)
    ensures Step(BOOT, CreateAccount(account), cfg) == Some(s1)
    ensures Step(s1, BeginSweep(0, account), cfg) == Some(s2)
    ensures Step(s2, OpenNow(account, sid, h, now), cfg) == Some(s3)
    ensures s3.txs == map[0 := Sweeping(account, {})]
    ensures s3.log == [NewAccount(account), Open(account, sid, h, now)] && |s3.answers| == 2
  {
    s1 := Step(BOOT, CreateAccount(account), cfg).value;
    s2 := Step(s1, BeginSweep(0, account), cfg).value;
    assert LiveSessionsOf(s1.db, account) == {};
    s3 := Step(s2, OpenNow(account, sid, h, now), cfg).value;
  }

  /** The late sweep finds nothing of what it saw. */
  lemma LateSweep(s: State, account: Id, sid: Id, h: TokenHash, now: int, cfg: Config) returns (e: State)
    requires s.db == LoggedIn(account, sid, h, now, cfg) && s.txs == map[0 := Sweeping(account, {})]
    ensures Referential(s.db) && Step(s, CommitSweep(0), cfg) == Some(e)
    ensures e.log == s.log + [RevokeSeen(account, {})] && e.answers == s.answers + [RevokedCount(0)]
  {
    e := Step(s, CommitSweep(0), cfg).value;
    assert {} * LiveSessionsOf(s.db, account) == {};
  }

  lemma NotWhatRevokeAllAnswers(h: seq<Served>, db: Db, account: Id, sid: Id, cfg: Config)
    requires h != [] && h[|h| - 1] == Served(RevokeAllRequest(account), RevokedCount(0))
    requires ServedAfter(EMPTY, h[..|h| - 1], cfg) == db && sid in LiveSessionsOf(db, account)
    ensures !Truthful(EMPTY, h, cfg)
  {
    var live := LiveSessionsOf(db, account);
    assert live * live == live;
    assert |live| > 0;
  }

  lemma TwoServed(h: seq<Served>, account: Id, sid: Id, t: TokenHash, now: int, cfg: Config)
    requires |h| == 2 && h[0].request == Other(NewAccount(account)) && h[1].request == Other(Open(account, sid, t, now))
    ensures ServedAfter(EMPTY, h, cfg) == LoggedIn(account, sid, t, now, cfg)
  {
    assert h[..1][..0] == [] && h[..1][0] == h[0];
    assert ServedAfter(EMPTY, h[..1], cfg) == Db(map[account := true], map[], map[]);
  }

  /** A login between a sweep's start and its commit: the order of commits is no history of `revokeAll`. */
  lemma OvertakenSweep(account: Id, sid: Id, h: TokenHash, now: int, cfg: Config)
    ensures
      var acts := [CreateAccount(account), BeginSweep(0, account), OpenNow(account, sid, h, now), CommitSweep(0)];
      exists e :: Reaches(BOOT, acts, e, cfg) && |e.log| == |e.answers| && !Truthful(EMPTY, Requested(e.log, e.answers), cfg)
  {
    var acts := [CreateAccount(account), BeginSweep(0, account), OpenNow(account, sid, h, now), CommitSweep(0)];
    var s1, s2, s3 := FirstThree(account, sid, h, now, cfg);
    var e := LateSweep(s3, account, sid, h, now, cfg);
    ReachesFour(BOOT, acts, s1, s2, s3, e, cfg);
    var served := Requested(e.log, e.answers);
    TwoServed(served[..2], account, sid, h, now, cfg);
    NotWhatRevokeAllAnswers(served, s3.db, account, sid, cfg);
  }

  lemma ReachesFour(s: State, acts: seq<Action>, s1: State, s2: State, s3: State, e: State, cfg: Config)
    requires |acts| == 4 && Referential(s.db) && Referential(s1.db) && Referential(s2.db) && Referential(s3.db)
    requires Step(s, acts[0], cfg) == Some(s1) && Step(s1, acts[1], cfg) == Some(s2)
    requires Step(s2, acts[2], cfg) == Some(s3) && Step(s3, acts[3], cfg) == Some(e)
    ensures Reaches(s, acts, e, cfg)
  {
    assert acts[1..][1..] == acts[2..] && acts[2..][1..] == acts[3..] && acts[3..][1..] == [];
    assert Reaches(s3, acts[3..], e, cfg);
    assert Reaches(s2, acts[2..], e, cfg);
    assert Reaches(s1, acts[1..], e, cfg);
  }
}
