/**
  Concurrent requests on the session tables, as interleaved steps.

  A refresh begins, looks its token up to find the session, waits for that session's row
  lock, looks up again, writes in its own workspace, and commits (or rolls back at any point).
  A statement that revokes sessions waits for the row locks it needs; `revokeAll` works on the
  sessions its statement saw when it started.  The random value a transaction draws is new:
  nobody has stored, drawn or presented it before.  `start` is the transaction's now(), so a
  transaction that waited for a lock commits with an older clock than one that did not.
 */
module SessionConcurrency {
  import opened Wrappers
  import opened Sessions
  import opened SessionHistories

  /** The rows a session lock protects: the session and its tokens. */
  datatype Slice = Slice(session: Session, tokens: map<TokenHash, Token>)

  datatype Tx =
    | Begun(h: TokenHash, start: int, draw: TokenHash)
    | Located(h: TokenHash, start: int, draw: TokenHash, sid: Option<Id>)
    | Locked(h: TokenHash, start: int, draw: TokenHash, sid: Option<Id>)
    | Written(h: TokenHash, start: int, draw: TokenHash, sid: Option<Id>, work: Option<Slice>, answer: Outcome)
    | Sweeping(account: Id, seen: set<Id>)

  /** The committed tables, the transactions in flight, and the commits so far, in order. */
  datatype State = State(db: Db, txs: map<nat, Tx>, log: seq<Op>, answers: seq<Outcome>)

  datatype Action =
    | BeginRefresh(x: nat, h: TokenHash, now: int, draw: TokenHash)
    | LocateSession(x: nat)
    | LockSession(x: nat)
    | Work(x: nat)
    | Commit(x: nat)
    | Rollback(x: nat)
    | LogoutNow(account: Id, session: Id)
    | BeginSweep(x: nat, account: Id)
    | CommitSweep(x: nat)
    | OpenNow(account: Id, session: Id, h: TokenHash, now: int)
    | DeactivateNow(account: Id)
    | CreateAccount(account: Id)

  predicate Holds(tx: Tx, sid: Id) {
    (tx.Locked? || tx.Written?) && tx.sid == Some(sid)
  }

  predicate Free(txs: map<nat, Tx>, sid: Id) {
    forall x <- txs :: !Holds(txs[x], sid)
  }

  /** `h` is neither presented nor drawn by a transaction in flight. */
  predicate Unheard(txs: map<nat, Tx>, h: TokenHash) {
    forall x <- txs :: !txs[x].Sweeping? ==> txs[x].h != h && txs[x].draw != h
  }

  function SliceOf(db: Db, sid: Id): Slice
    requires sid in db.sessions
  {
    Slice(db.sessions[sid], map h | h in db.tokens && db.tokens[h].session == sid :: db.tokens[h])
  }

  /** Publishing a workspace: the locked session's rows replace the committed ones. */
  function Publish(db: Db, sid: Option<Id>, work: Option<Slice>): Db {
    if sid.None? || work.None? then db
    else db.(sessions := db.sessions[sid.value := work.value.session], tokens := db.tokens + work.value.tokens)
  }

  /** What a refresh writes and answers on the tables as it sees them. */
  function WorkOn(db: Db, h: TokenHash, start: int, draw: TokenHash, cfg: Config): (Option<Slice>, Outcome)
    requires Referential(db)
  {
    var r := RefreshTx(db, h, start, draw, cfg);
    var sid := LookupToken(db, h, start).session;
    (if sid.Some? && sid.value in r.0.sessions then Some(SliceOf(r.0, sid.value)) else None, r.1)
  }

  function Logged(s: State, d: Db, op: Op, answer: Outcome): State {
    s.(db := d, log := s.log + [op], answers := s.answers + [answer])
  }

  function CommitOp(s: State, op: Op, cfg: Config): State
    requires Referential(s.db)
  {
    var r := Apply(s.db, op, cfg);
    Logged(s, r.0, op, r.1)
  }

  /** One step, or None when it must wait or cannot happen. */
  function Step(s: State, a: Action, cfg: Config): Option<State>
    requires Referential(s.db)
  {
    match a
    case BeginRefresh(x, h, now, draw) =>
      if x in s.txs || draw == h || draw in s.db.tokens || !Unheard(s.txs, draw)
         || (exists y <- s.txs :: !s.txs[y].Sweeping? && s.txs[y].draw == h) then None
      else Some(s.(txs := s.txs[x := Begun(h, now, draw)]))
    case LocateSession(x) =>
      if x in s.txs && s.txs[x].Begun? then
        var t := s.txs[x];
        Some(s.(txs := s.txs[x := Located(t.h, t.start, t.draw, LookupToken(s.db, t.h, t.start).session)]))
      else None
    case LockSession(x) =>
      if x in s.txs && s.txs[x].Located? && (s.txs[x].sid.None? || Free(s.txs, s.txs[x].sid.value)) then
        var t := s.txs[x];
        Some(s.(txs := s.txs[x := Locked(t.h, t.start, t.draw, t.sid)]))
      else None
    case Work(x) =>
      if x in s.txs && s.txs[x].Locked? then
        var t := s.txs[x];
        var w := WorkOn(s.db, t.h, t.start, t.draw, cfg);
        Some(s.(txs := s.txs[x := Written(t.h, t.start, t.draw, LookupToken(s.db, t.h, t.start).session, w.0, w.1)]))
      else None
    case Commit(x) =>
      if x in s.txs && s.txs[x].Written? then
        var t := s.txs[x];
        Some(Logged(s, Publish(s.db, t.sid, t.work), Refresh(t.h, t.start, t.draw), t.answer).(txs := s.txs - {x}))
      else None
    case Rollback(x) => Some(s.(txs := s.txs - {x}))
    case LogoutNow(account, sid) =>
      if Free(s.txs, sid) then Some(CommitOp(s, Logout(account, sid), cfg)) else None
    case BeginSweep(x, account) =>
      if x in s.txs then None else Some(s.(txs := s.txs[x := Sweeping(account, LiveSessionsOf(s.db, account))]))
    case CommitSweep(x) =>
      if x in s.txs && s.txs[x].Sweeping? && (forall sid <- s.txs[x].seen :: Free(s.txs, sid)) then
        Some(CommitOp(s, RevokeSeen(s.txs[x].account, s.txs[x].seen), cfg).(txs := s.txs - {x}))
      else None
    case OpenNow(account, sid, h, now) =>
      if Unheard(s.txs, h) then Some(CommitOp(s, Open(account, sid, h, now), cfg)) else None
    case DeactivateNow(account) =>
      if forall sid <- LiveSessionsOf(s.db, account) :: Free(s.txs, sid)
      then Some(CommitOp(s, Deactivate(account), cfg)) else None
    case CreateAccount(account) => Some(CommitOp(s, NewAccount(account), cfg))
  }

  const BOOT := State(EMPTY, map[], [], [])

  // ---------------------------------------------------------------------------
  // The invariant
  // ---------------------------------------------------------------------------

  ghost predicate TxOk(db: Db, tx: Tx, cfg: Config)
    requires Referential(db)
  {
    match tx
    case Begun(h, start, draw) => draw !in db.tokens && draw != h
    case Located(h, start, draw, sid) => draw !in db.tokens && draw != h && sid == LookupToken(db, h, start).session
    case Locked(h, start, draw, sid) => draw !in db.tokens && draw != h && sid == LookupToken(db, h, start).session
    case Written(h, start, draw, sid, work, answer) =>
      && draw !in db.tokens && draw != h
      && sid == LookupToken(db, h, start).session
      && (work, answer) == WorkOn(db, h, start, draw, cfg)
    case Sweeping(_, _) => true
  }

  /** No two transactions share a draw, and nobody presents another's draw. */
  ghost predicate DrawsApart(txs: map<nat, Tx>) {
    forall x, y | x in txs && y in txs && x != y && !txs[x].Sweeping? && !txs[y].Sweeping? ::
      txs[x].draw != txs[y].draw && txs[x].draw != txs[y].h
  }

  ghost predicate LocksExclusive(txs: map<nat, Tx>) {
    forall x, y, sid | x in txs && y in txs && Holds(txs[x], sid) && Holds(txs[y], sid) :: x == y
  }

  /** No refresh was ever answered with an exception of the database. */
  ghost predicate RefreshesClean(log: seq<Op>, answers: seq<Outcome>) {
    && |log| == |answers|
    && forall i :: 0 <= i < |log| ==> log[i].Refresh? ==> !answers[i].Raised?
  }

  /** The committed tables are what the log of commits, replayed one by one, produces. */
  ghost predicate Inv(s: State, cfg: Config) {
    && WellFormed(s.db)
    && After(EMPTY, s.log, cfg) == s.db
    && Answers(EMPTY, s.log, cfg) == s.answers
    && RefreshesClean(s.log, s.answers)
    && (forall x <- s.txs :: TxOk(s.db, s.txs[x], cfg))
    && DrawsApart(s.txs)
    && LocksExclusive(s.txs)
  }

  lemma {:induction false} AfterSnoc(db: Db, ops: seq<Op>, op: Op, cfg: Config)
    requires Referential(db)
    ensures After(db, ops + [op], cfg) == Apply(After(db, ops, cfg), op, cfg).0
    ensures Answers(db, ops + [op], cfg) == Answers(db, ops, cfg) + [Apply(After(db, ops, cfg), op, cfg).1]
    decreases |ops|
  {
    if ops == [] {
      assert ops + [op] == [op];
      assert Answers(Apply(db, op, cfg).0, [], cfg) == [];
    } else {
      assert (ops + [op])[1..] == ops[1..] + [op];
      AfterSnoc(Apply(db, ops[0], cfg).0, ops[1..], op, cfg);
    }
  }

  // ---------------------------------------------------------------------------
  // Locality: a refresh only depends on the rows its lock protects
  // ---------------------------------------------------------------------------

  lemma SliceMembers(db: Db, d: Db, sid: Id, h: TokenHash)
    requires sid in db.sessions && sid in d.sessions && SliceOf(db, sid) == SliceOf(d, sid)
    requires h in db.tokens && db.tokens[h].session == sid
    ensures h in d.tokens && d.tokens[h] == db.tokens[h]
  {
    assert h in SliceOf(db, sid).tokens;
    assert h in SliceOf(d, sid).tokens;
    assert SliceOf(db, sid).tokens[h] == SliceOf(d, sid).tokens[h];
  }

  lemma SameVerdict(db: Db, d: Db, sid: Id, h: TokenHash, now: int)
    requires WellFormed(db) && WellFormed(d)
    requires sid in db.sessions && sid in d.sessions && SliceOf(db, sid) == SliceOf(d, sid)
    requires h in db.tokens && db.tokens[h].session == sid
    ensures LookupToken(db, h, now) == LookupToken(d, h, now)
  {
    SliceMembers(db, d, sid, h);
    if db.tokens[h].replacedBy.Some? { SliceMembers(db, d, sid, db.tokens[h].replacedBy.value); }
  }

  lemma RotatedIsLocal(db: Db, d: Db, sid: Id, spent: TokenHash, now: int, draw: TokenHash, cfg: Config)
    requires sid in db.sessions && sid in d.sessions && SliceOf(db, sid) == SliceOf(d, sid)
    requires spent in db.tokens && db.tokens[spent].session == sid && spent in d.tokens && d.tokens[spent] == db.tokens[spent]
    requires draw !in db.tokens && draw !in d.tokens
    ensures
      Rotated(d, spent, sid, now, draw, cfg) ==
      Publish(d, Some(sid), Some(SliceOf(Rotated(db, spent, sid, now, draw, cfg), sid)))
  {
    var r := Rotated(db, spent, sid, now, draw, cfg);
    var e := Rotated(d, spent, sid, now, draw, cfg);
    var p := Publish(d, Some(sid), Some(SliceOf(r, sid)));
    assert e.sessions == p.sessions;
    forall h <- p.tokens ensures h in e.tokens && e.tokens[h] == p.tokens[h] {
      if h in SliceOf(r, sid).tokens && h != draw && h != spent { SliceMembers(db, d, sid, h); }
    }
    forall h <- e.tokens ensures h in p.tokens {}
    assert e.tokens == p.tokens;
  }

  lemma CutTokensAgree(db: Db, d: Db, sid: Id, reason: RevokeReason, h: TokenHash)
    requires Referential(db) && Referential(d)
    requires sid in db.sessions && sid in d.sessions && SliceOf(db, sid) == SliceOf(d, sid)
    requires h in d.tokens
    ensures
      var slice := SliceOf(Cut(db, {sid}, reason), sid).tokens;
      Cut(d, {sid}, reason).tokens[h] == if h in slice then slice[h] else d.tokens[h]
  {
    var slice := SliceOf(Cut(db, {sid}, reason), sid).tokens;
    if d.tokens[h].session == sid {
      SliceMembers(d, db, sid, h);
      assert h in slice;
    } else if h in slice {
      SliceMembers(db, d, sid, h);
    }
  }

  lemma CutSessionAgrees(db: Db, d: Db, sid: Id, reason: RevokeReason)
    requires Referential(db) && Referential(d)
    requires sid in db.sessions && sid in d.sessions && db.sessions[sid] == d.sessions[sid]
    ensures Cut(d, {sid}, reason).sessions == d.sessions[sid := Cut(db, {sid}, reason).sessions[sid]]
  {
  }

  lemma CutTokensAreLocal(db: Db, d: Db, sid: Id, reason: RevokeReason)
    requires Referential(db) && Referential(d)
    requires sid in db.sessions && sid in d.sessions && SliceOf(db, sid) == SliceOf(d, sid)
    ensures Cut(d, {sid}, reason).tokens == d.tokens + SliceOf(Cut(db, {sid}, reason), sid).tokens
  {
    var slice := SliceOf(Cut(db, {sid}, reason), sid).tokens;
    forall h <- slice ensures h in d.tokens { SliceMembers(db, d, sid, h); }
    forall h <- d.tokens ensures Cut(d, {sid}, reason).tokens[h] == (d.tokens + slice)[h] {
      CutTokensAgree(db, d, sid, reason, h);
    }
  }

  lemma CutIsLocal(db: Db, d: Db, sid: Id, reason: RevokeReason)
    requires Referential(db) && Referential(d)
    requires sid in db.sessions && sid in d.sessions && SliceOf(db, sid) == SliceOf(d, sid)
    ensures Cut(d, {sid}, reason) == Publish(d, Some(sid), Some(SliceOf(Cut(db, {sid}, reason), sid)))
  {
    CutSessionAgrees(db, d, sid, reason);
    CutTokensAreLocal(db, d, sid, reason);
  }

  lemma PublishOwnSlice(d: Db, sid: Id)
    requires sid in d.sessions
    ensures Publish(d, Some(sid), Some(SliceOf(d, sid))) == d
  {
  }

  /**
    The workspace computed earlier is still the refresh of the tables as they now stand:
    publishing it is running the whole request, alone, at this moment.
   */
  lemma RefreshIsLocal(db: Db, d: Db, sid: Id, h: TokenHash, now: int, draw: TokenHash, cfg: Config)
    requires WellFormed(db) && WellFormed(d)
    requires sid in db.sessions && sid in d.sessions && SliceOf(db, sid) == SliceOf(d, sid)
    requires h in db.tokens && db.tokens[h].session == sid
    requires LookupToken(db, h, now).verdict in {USABLE, GRACE} ==> draw !in db.tokens && draw !in d.tokens
    ensures RefreshTx(d, h, now, draw, cfg).1 == RefreshTx(db, h, now, draw, cfg).1
    ensures sid in RefreshTx(db, h, now, draw, cfg).0.sessions
    ensures
      RefreshTx(d, h, now, draw, cfg).0 ==
      Publish(d, Some(sid), Some(SliceOf(RefreshTx(db, h, now, draw, cfg).0, sid)))
  {
    SameVerdict(db, d, sid, h, now);
    SliceMembers(db, d, sid, h);
    var v := LookupToken(db, h, now);
    if v.verdict in {USABLE, GRACE} {
      RefreshNeverRaises(db, h, now, draw, cfg);
      RefreshNeverRaises(d, h, now, draw, cfg);
      SliceMembers(db, d, sid, Spent(v).value);
      RotatedIsLocal(db, d, sid, Spent(v).value, now, draw, cfg);
    } else if v.verdict == REPLAY {
      CutIsLocal(db, d, sid, REPLAY_DETECTED);
    } else {
      PublishOwnSlice(d, sid);
    }
  }

  lemma RefreshKeepsOwners(db: Db, h: TokenHash, now: int, draw: TokenHash, cfg: Config, sid: Id)
    requires WellFormed(db) && h in db.tokens && db.tokens[h].session == sid && draw !in db.tokens
    ensures
      var r := RefreshTx(db, h, now, draw, cfg).0;
      && (forall k <- db.tokens :: k in r.tokens && r.tokens[k].session == db.tokens[k].session)
      && sid in r.sessions
  {
    RefreshAges(db, h, now, draw, cfg);
  }

  lemma WorkIsLocal(db: Db, d: Db, sid: Id, h: TokenHash, now: int, draw: TokenHash, cfg: Config)
    requires WellFormed(db) && WellFormed(d)
    requires sid in db.sessions && sid in d.sessions && SliceOf(db, sid) == SliceOf(d, sid)
    requires h in db.tokens && db.tokens[h].session == sid
    requires draw !in db.tokens && draw !in d.tokens
    ensures WorkOn(d, h, now, draw, cfg) == WorkOn(db, h, now, draw, cfg)
  {
    RefreshIsLocal(db, d, sid, h, now, draw, cfg);
    RefreshKeepsOwners(db, h, now, draw, cfg, sid);
    SliceMembers(db, d, sid, h);
    var w := SliceOf(RefreshTx(db, h, now, draw, cfg).0, sid);
    forall k <- d.tokens | d.tokens[k].session == sid ensures k in w.tokens { SliceMembers(d, db, sid, k); }
    SliceOfPublished(d, sid, w);
  }

  lemma SliceOfPublished(d: Db, sid: Id, w: Slice)
    requires sid in d.sessions
    requires forall h <- w.tokens :: w.tokens[h].session == sid
    requires forall h <- d.tokens :: d.tokens[h].session == sid ==> h in w.tokens
    ensures SliceOf(Publish(d, Some(sid), Some(w)), sid) == w
  {
    var p := Publish(d, Some(sid), Some(w));
    assert SliceOf(p, sid).tokens == w.tokens;
  }

  // ---------------------------------------------------------------------------
  // Every step keeps the invariant
  // ---------------------------------------------------------------------------

  lemma CutLeaves(db: Db, ids: set<Id>, reason: RevokeReason, other: Id)
    requires Referential(db) && other in db.sessions && other !in ids
    ensures other in Cut(db, ids, reason).sessions
    ensures SliceOf(Cut(db, ids, reason), other) == SliceOf(db, other)
  {
    assert SliceOf(Cut(db, ids, reason), other).tokens == SliceOf(db, other).tokens;
  }

  lemma RotatedLeaves(db: Db, spent: TokenHash, sid: Id, now: int, draw: TokenHash, cfg: Config, other: Id)
    requires spent in db.tokens && sid in db.sessions && db.tokens[spent].session == sid && draw !in db.tokens
    requires other in db.sessions && other != sid
    ensures SliceOf(Rotated(db, spent, sid, now, draw, cfg), other) == SliceOf(db, other)
  {
    assert SliceOf(Rotated(db, spent, sid, now, draw, cfg), other).tokens == SliceOf(db, other).tokens;
  }

  lemma RefreshLeaves(db: Db, h: TokenHash, now: int, draw: TokenHash, cfg: Config, other: Id)
    requires WellFormed(db) && draw !in db.tokens && other in db.sessions
    requires LookupToken(db, h, now).session != Some(other)
    ensures other in RefreshTx(db, h, now, draw, cfg).0.sessions
    ensures SliceOf(RefreshTx(db, h, now, draw, cfg).0, other) == SliceOf(db, other)
  {
    var v := LookupToken(db, h, now);
    RefreshNeverRaises(db, h, now, draw, cfg);
    if v.verdict in {USABLE, GRACE} {
      RotatedLeaves(db, Spent(v).value, db.tokens[h].session, now, draw, cfg, other);
    } else if v.verdict == REPLAY {
      CutLeaves(db, {v.session.value}, REPLAY_DETECTED, other);
    }
  }

  lemma RefreshOnlyAddsDraw(db: Db, h: TokenHash, now: int, draw: TokenHash, cfg: Config)
    requires WellFormed(db) && draw !in db.tokens
    ensures RefreshTx(db, h, now, draw, cfg).0.tokens.Keys <= db.tokens.Keys + {draw}
  {
    RefreshNeverRaises(db, h, now, draw, cfg);
  }

  /** The rows other transactions rely on are as they left them. */
  ghost predicate Undisturbed(db: Db, d: Db, tx: Tx) {
    !tx.Sweeping? ==>
      && tx.draw !in d.tokens
      && (tx.h !in db.tokens ==> tx.h !in d.tokens)
      && (tx.Written? && tx.sid.Some? && tx.sid.value in db.sessions ==>
            tx.sid.value in d.sessions && SliceOf(d, tx.sid.value) == SliceOf(db, tx.sid.value))
  }

  lemma UndisturbedTxOk(db: Db, d: Db, tx: Tx, cfg: Config)
    requires WellFormed(db) && WellFormed(d) && Ages(db, d) && TxOk(db, tx, cfg) && Undisturbed(db, d, tx)
    ensures TxOk(d, tx, cfg)
  {
    if tx.Written? && tx.sid.Some? {
      WorkIsLocal(db, d, tx.sid.value, tx.h, tx.start, tx.draw, cfg);
    }
  }

  /** A commit of `op` that disturbs nobody left in flight extends the serial log. */
  lemma CommitKeepsInv(s: State, op: Op, gone: set<nat>, cfg: Config)
    requires Inv(s, cfg)
    requires forall x <- s.txs - gone :: Undisturbed(s.db, Apply(s.db, op, cfg).0, s.txs[x])
    requires op.Refresh? ==> !Apply(s.db, op, cfg).1.Raised?
    ensures Inv(CommitOp(s, op, cfg).(txs := s.txs - gone), cfg)
  {
    var d := Apply(s.db, op, cfg).0;
    ApplyWellFormed(s.db, op, cfg);
    ApplyAges(s.db, op, cfg);
    AfterSnoc(EMPTY, s.log, op, cfg);
    forall x <- s.txs - gone ensures TxOk(d, s.txs[x], cfg) {
      UndisturbedTxOk(s.db, d, s.txs[x], cfg);
    }
  }

  /** A commit beside transactions that all stay in flight. */
  lemma CommitBeside(s: State, op: Op, cfg: Config)
    requires Inv(s, cfg) && !op.Refresh?
    requires forall x <- s.txs :: Undisturbed(s.db, Apply(s.db, op, cfg).0, s.txs[x])
    ensures Inv(CommitOp(s, op, cfg), cfg)
  {
    assert s.txs - {} == s.txs;
    CommitKeepsInv(s, op, {}, cfg);
  }

  /** The commit of a workspace is the whole refresh run alone at the commit. */
  lemma WorkspaceIsRefresh(db: Db, tx: Tx, cfg: Config)
    requires WellFormed(db) && tx.Written? && TxOk(db, tx, cfg)
    ensures
      Apply(db, Refresh(tx.h, tx.start, tx.draw), cfg) == (Publish(db, tx.sid, tx.work), tx.answer)
  {
    if tx.sid.Some? {
      RefreshIsLocal(db, db, tx.sid.value, tx.h, tx.start, tx.draw, cfg);
    }
  }

  lemma CommitUndisturbs(s: State, x: nat, y: nat, cfg: Config)
    requires Inv(s, cfg) && x in s.txs && s.txs[x].Written? && y in s.txs && y != x
    ensures
      var t := s.txs[x];
      Undisturbed(s.db, RefreshTx(s.db, t.h, t.start, t.draw, cfg).0, s.txs[y])
  {
    var t, u := s.txs[x], s.txs[y];
    RefreshOnlyAddsDraw(s.db, t.h, t.start, t.draw, cfg);
    if u.Written? && u.sid.Some? && u.sid.value in s.db.sessions {
      assert Holds(u, u.sid.value);
      assert !Holds(t, u.sid.value);
      RefreshLeaves(s.db, t.h, t.start, t.draw, cfg, u.sid.value);
    }
  }

  lemma CommitStep(s: State, x: nat, cfg: Config)
    requires Inv(s, cfg) && Step(s, Commit(x), cfg).Some?
    ensures Inv(Step(s, Commit(x), cfg).value, cfg)
  {
    var t := s.txs[x];
    WorkspaceIsRefresh(s.db, t, cfg);
    RefreshNeverRaises(s.db, t.h, t.start, t.draw, cfg);
    forall y <- s.txs - {x}
      ensures Undisturbed(s.db, Apply(s.db, Refresh(t.h, t.start, t.draw), cfg).0, s.txs[y])
    {
      CommitUndisturbs(s, x, y, cfg);
    }
    CommitKeepsInv(s, Refresh(t.h, t.start, t.draw), {x}, cfg);
  }

  lemma CutStep(s: State, ids: set<Id>, reason: RevokeReason, tx: Tx, cfg: Config)
    requires Inv(s, cfg) && TxOk(s.db, tx, cfg)
    requires forall sid <- ids :: !Holds(tx, sid)
    ensures Undisturbed(s.db, Cut(s.db, ids, reason), tx)
  {
    if tx.Written? && tx.sid.Some? && tx.sid.value in s.db.sessions {
      assert Holds(tx, tx.sid.value);
      CutLeaves(s.db, ids, reason, tx.sid.value);
    }
  }

  lemma LogoutStep(s: State, account: Id, sid: Id, cfg: Config)
    requires Inv(s, cfg) && Step(s, LogoutNow(account, sid), cfg).Some?
    ensures Inv(Step(s, LogoutNow(account, sid), cfg).value, cfg)
  {
    forall x <- s.txs ensures Undisturbed(s.db, LogoutTx(s.db, account, sid).0, s.txs[x]) {
      CutStep(s, {sid}, LOGOUT, s.txs[x], cfg);
    }
    CommitBeside(s, Logout(account, sid), cfg);
  }

  lemma SweepStep(s: State, x: nat, cfg: Config)
    requires Inv(s, cfg) && Step(s, CommitSweep(x), cfg).Some?
    ensures Inv(Step(s, CommitSweep(x), cfg).value, cfg)
  {
    var op := RevokeSeen(s.txs[x].account, s.txs[x].seen);
    forall y <- s.txs - {x} ensures Undisturbed(s.db, Apply(s.db, op, cfg).0, s.txs[y]) {
      CutStep(s, op.seen * LiveSessionsOf(s.db, op.account), LOGOUT_ALL, s.txs[y], cfg);
    }
    CommitKeepsInv(s, op, {x}, cfg);
  }

  lemma DeactivateLeaves(s: State, account: Id, tx: Tx, cfg: Config)
    requires Inv(s, cfg) && TxOk(s.db, tx, cfg)
    requires forall sid <- LiveSessionsOf(s.db, account) :: !Holds(tx, sid)
    ensures Undisturbed(s.db, DeactivateTx(s.db, account).0, tx)
  {
    CutStep(s, LiveSessionsOf(s.db, account), ADMIN, tx, cfg);
  }

  /** Everyone waits for the locks of the sessions a deactivation cuts. */
  lemma DeactivateUndisturbs(s: State, account: Id, cfg: Config)
    requires Inv(s, cfg) && forall sid <- LiveSessionsOf(s.db, account) :: Free(s.txs, sid)
    ensures forall x <- s.txs :: Undisturbed(s.db, DeactivateTx(s.db, account).0, s.txs[x])
  {
    forall x <- s.txs ensures Undisturbed(s.db, DeactivateTx(s.db, account).0, s.txs[x]) {
      assert forall sid <- LiveSessionsOf(s.db, account) :: !Holds(s.txs[x], sid);
      DeactivateLeaves(s, account, s.txs[x], cfg);
    }
  }

  lemma DeactivateStep(s: State, account: Id, cfg: Config)
    requires Inv(s, cfg) && Step(s, DeactivateNow(account), cfg).Some?
    ensures Inv(Step(s, DeactivateNow(account), cfg).value, cfg)
  {
    DeactivateUndisturbs(s, account, cfg);
    CommitBeside(s, Deactivate(account), cfg);
  }

  lemma OpenSpares(db: Db, account: Id, sid: Id, h: TokenHash, now: int, other: Id, cfg: Config)
    requires other in db.sessions
    ensures other in OpenTx(db, account, sid, h, now, cfg).0.sessions
    ensures SliceOf(OpenTx(db, account, sid, h, now, cfg).0, other) == SliceOf(db, other)
  {
    assert SliceOf(OpenTx(db, account, sid, h, now, cfg).0, other).tokens == SliceOf(db, other).tokens;
  }

  lemma OpenLeaves(s: State, account: Id, sid: Id, h: TokenHash, now: int, tx: Tx, cfg: Config)
    requires Inv(s, cfg) && TxOk(s.db, tx, cfg)
    requires !tx.Sweeping? ==> tx.draw != h && tx.h != h
    ensures Undisturbed(s.db, OpenTx(s.db, account, sid, h, now, cfg).0, tx)
  {
    if tx.Written? && tx.sid.Some? && tx.sid.value in s.db.sessions {
      OpenSpares(s.db, account, sid, h, now, tx.sid.value, cfg);
    }
  }

  lemma OpenStep(s: State, account: Id, sid: Id, h: TokenHash, now: int, cfg: Config)
    requires Inv(s, cfg) && Step(s, OpenNow(account, sid, h, now), cfg).Some?
    ensures Inv(Step(s, OpenNow(account, sid, h, now), cfg).value, cfg)
  {
    var d := OpenTx(s.db, account, sid, h, now, cfg).0;
    forall x <- s.txs ensures Undisturbed(s.db, d, s.txs[x]) {
      OpenLeaves(s, account, sid, h, now, s.txs[x], cfg);
    }
    CommitBeside(s, Open(account, sid, h, now), cfg);
  }

  lemma AccountStep(s: State, account: Id, cfg: Config)
    requires Inv(s, cfg)
    ensures Inv(Step(s, CreateAccount(account), cfg).value, cfg)
  {
    CommitBeside(s, NewAccount(account), cfg);
  }

  /** Steps that write nothing at all: locate, the sweep's snapshot, rollback; then begin, lock, and work. */
  lemma PrivateStep(s: State, a: Action, cfg: Config)
    requires Inv(s, cfg) && Step(s, a, cfg).Some?
    requires a.LocateSession? || a.BeginSweep? || a.Rollback?
    ensures Inv(Step(s, a, cfg).value, cfg)
  {
  }

  lemma BeginStep(s: State, a: Action, cfg: Config)
    requires Inv(s, cfg) && Step(s, a, cfg).Some? && a.BeginRefresh?
    ensures Inv(Step(s, a, cfg).value, cfg)
  {
  }

  lemma LockStep(s: State, x: nat, cfg: Config)
    requires Inv(s, cfg) && Step(s, LockSession(x), cfg).Some?
    ensures Inv(Step(s, LockSession(x), cfg).value, cfg)
  {
  }

  lemma WorkStep(s: State, x: nat, cfg: Config)
    requires Inv(s, cfg) && Step(s, Work(x), cfg).Some?
    ensures Inv(Step(s, Work(x), cfg).value, cfg)
  {
  }

  lemma StepKeepsInv(s: State, a: Action, cfg: Config)
    requires Inv(s, cfg) && Step(s, a, cfg).Some?
    ensures Inv(Step(s, a, cfg).value, cfg)
  {
    match a
    case Commit(x) => CommitStep(s, x, cfg);
    case LogoutNow(account, sid) => LogoutStep(s, account, sid, cfg);
    case CommitSweep(x) => SweepStep(s, x, cfg);
    case OpenNow(account, sid, h, now) => OpenStep(s, account, sid, h, now, cfg);
    case DeactivateNow(account) => DeactivateStep(s, account, cfg);
    case CreateAccount(account) => AccountStep(s, account, cfg);
    case Work(x) => WorkStep(s, x, cfg);
    case BeginRefresh(_, _, _, _) => BeginStep(s, a, cfg);
    case LockSession(x) => LockStep(s, x, cfg);
    case _ => PrivateStep(s, a, cfg);
  }

  // ---------------------------------------------------------------------------
  // Whole runs
  // ---------------------------------------------------------------------------

  /** `acts`, each enabled in turn, lead from `s` to `e`. */
  ghost predicate Reaches(s: State, acts: seq<Action>, e: State, cfg: Config)
    decreases |acts|
  {
    if acts == [] then s == e
    else Referential(s.db) && Step(s, acts[0], cfg).Some? && Reaches(Step(s, acts[0], cfg).value, acts[1..], e, cfg)
  }

  lemma StepExtendsLog(s: State, a: Action, cfg: Config)
    requires Referential(s.db) && Step(s, a, cfg).Some?
    ensures s.log <= Step(s, a, cfg).value.log
  {
  }

  lemma {:induction false} RunKeepsInv(s: State, acts: seq<Action>, e: State, cfg: Config)
    requires Inv(s, cfg) && Reaches(s, acts, e, cfg)
    ensures Inv(e, cfg)
    decreases |acts|
  {
    if acts != [] {
      StepKeepsInv(s, acts[0], cfg);
      RunKeepsInv(Step(s, acts[0], cfg).value, acts[1..], e, cfg);
    }
  }

  lemma {:induction false} RunExtendsLog(s: State, acts: seq<Action>, e: State, cfg: Config)
    requires Reaches(s, acts, e, cfg)
    ensures s.log <= e.log
    decreases |acts|
  {
    if acts != [] {
      StepExtendsLog(s, acts[0], cfg);
      RunExtendsLog(Step(s, acts[0], cfg).value, acts[1..], e, cfg);
    }
  }

  /**
    Any interleaving gives the tables and the answers of a serial order, the order of commits:
    each verdict that decided is the one the request would get running alone at its commit,
    every living session has one chain, and no refresh ever met an exception.
   */
  lemma Serializable(acts: seq<Action>, e: State, cfg: Config)
    requires Reaches(BOOT, acts, e, cfg)
    ensures After(EMPTY, e.log, cfg) == e.db && Answers(EMPTY, e.log, cfg) == e.answers
    ensures WellFormed(e.db)
    ensures RefreshesClean(e.log, e.answers)
    ensures forall x <- e.txs :: e.txs[x].Written? ==>
              Apply(e.db, Refresh(e.txs[x].h, e.txs[x].start, e.txs[x].draw), cfg).1 == e.txs[x].answer
  {
    RunKeepsInv(BOOT, acts, e, cfg);
    forall x <- e.txs | e.txs[x].Written?
      ensures Apply(e.db, Refresh(e.txs[x].h, e.txs[x].start, e.txs[x].draw), cfg).1 == e.txs[x].answer
    {
      WorkspaceIsRefresh(e.db, e.txs[x], cfg);
    }
  }

  /** Over any interleaved run, one token value is answered at most once USABLE, once GRACE. */
  lemma AtMostTwoConcurrentUses(acts: seq<Action>, e: State, h: TokenHash, cfg: Config)
    requires Reaches(BOOT, acts, e, cfg)
    ensures Count(EMPTY, e.log, h, USABLE, cfg) <= 1
    ensures Count(EMPTY, e.log, h, GRACE, cfg) <= 1
    ensures forall v :: v !in {USABLE, GRACE} ==> Count(EMPTY, e.log, h, v, cfg) == 0
  {
    AtMostTwoUses(EMPTY, e.log, h, cfg);
  }

  lemma {:induction false} AfterPrefix(db: Db, a: seq<Op>, b: seq<Op>, cfg: Config)
    requires Referential(db)
    ensures After(db, a + b, cfg) == After(After(db, a, cfg), b, cfg)
    decreases |a|
  {
    if a == [] {
      assert a + b == b;
    } else {
      assert (a + b)[1..] == a[1..] + b;
      AfterPrefix(Apply(db, a[0], cfg).0, a[1..], b, cfg);
    }
  }

  /** From a committed state where a session is revoked, no later commit serves its tokens. */
  lemma RevokedForGoodUnderConcurrency(s: State, acts: seq<Action>, e: State, h: TokenHash, v: Verdict, cfg: Config)
    requires Inv(s, cfg) && Reaches(s, acts, e, cfg)
    requires h in s.db.tokens && !Live(s.db, s.db.tokens[h].session)
    ensures s.log <= e.log
    ensures Count(s.db, e.log[|s.log|..], h, v, cfg) == 0
    ensures After(s.db, e.log[|s.log|..], cfg) == e.db
    ensures h in e.db.tokens && e.db.tokens[h].status == REVOKED
  {
    RunKeepsInv(s, acts, e, cfg);
    RunExtendsLog(s, acts, e, cfg);
    var later := e.log[|s.log|..];
    assert e.log == s.log + later;
    AfterPrefix(EMPTY, s.log, later, cfg);
    RevokedForGood(s.db, later, h, v, cfg);
    StaysRevoked(s.db, later, h, cfg);
  }

  lemma {:induction false} StaysRevoked(db: Db, ops: seq<Op>, h: TokenHash, cfg: Config)
    requires WellFormed(db) && h in db.tokens && !Live(db, db.tokens[h].session)
    ensures h in After(db, ops, cfg).tokens && After(db, ops, cfg).tokens[h].status == REVOKED
    decreases |ops|
  {
    if ops != [] {
      var d := Apply(db, ops[0], cfg).0;
      ApplyWellFormed(db, ops[0], cfg);
      assert h in d.tokens && !Live(d, d.tokens[h].session) by { ApplyAges(db, ops[0], cfg); }
      StaysRevoked(d, ops[1..], h, cfg);
    }
  }

  /**
    A `revokeAll` that waited equals one run at its commit exactly when no living session of
    the account was opened after its statement started.
   */
  lemma SweepIsRevokeAllIff(db: Db, account: Id, seen: set<Id>)
    requires Referential(db)
    ensures RevokeSeenTx(db, account, seen) == RevokeAllTx(db, account) <==> LiveSessionsOf(db, account) <= seen
  {
    var live := LiveSessionsOf(db, account);
    assert live * live == live;
    if live <= seen {
      assert seen * live == live;
    } else {
      var s :| s in live && s !in seen;
      assert RevokeSeenTx(db, account, seen).0.sessions[s].revoked.None?;
      assert RevokeAllTx(db, account).0.sessions[s].revoked.Some?;
    }
  }
}
