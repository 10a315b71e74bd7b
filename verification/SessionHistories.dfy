/**
  What every serial history of session operations keeps: one chain of tokens per living
  session, no exception on the refresh path, and at most two uses of any token value.
 */
module SessionHistories {
  import opened Wrappers
  import opened Sessions

  // ---------------------------------------------------------------------------
  // Shape of a chain
  // ---------------------------------------------------------------------------

  lemma ActiveIsTail(db: Db, sid: Id, c: seq<TokenHash>, h: TokenHash)
    requires ChainOf(db, sid, c)
    requires h in db.tokens && db.tokens[h].session == sid && db.tokens[h].status == ACTIVE
    ensures h == c[|c| - 1]
  {
    var i :| 0 <= i < |c| && c[i] == h;
    assert i == |c| - 1;
  }

  /** Under a GRACE verdict the successor is the ACTIVE tail of the same session. */
  lemma GraceSuccessorIsTail(db: Db, sid: Id, c: seq<TokenHash>, h: TokenHash)
    requires ChainOf(db, sid, c)
    requires h in db.tokens && db.tokens[h].session == sid && db.tokens[h].status == ROTATED
    ensures db.tokens[h].replacedBy.Some?
    ensures
      var succ := db.tokens[h].replacedBy.value;
      succ in c && (db.tokens[succ].status == ACTIVE ==> succ == c[|c| - 1])
  {
    var i :| 0 <= i < |c| && c[i] == h;
    assert i < |c| - 1;
    assert c[i + 1] in c;
    if db.tokens[c[i + 1]].status == ACTIVE { ActiveIsTail(db, sid, c, c[i + 1]); }
  }

  /** Rotating the ACTIVE token of a living session under an unused draw never raises. */
  lemma RotateSucceeds(db: Db, spent: TokenHash, sid: Id, now: int, draw: TokenHash, cfg: Config)
    requires WellFormed(db) && Live(db, sid) && db.sessions[sid].absoluteExpiresAt > now
    requires spent in db.tokens && db.tokens[spent].session == sid && db.tokens[spent].status == ACTIVE
    requires draw !in db.tokens
    ensures Rotate(db, spent, now, draw, cfg).Ok?
    ensures Rotate(db, spent, now, draw, cfg).value == Rotated(db, spent, sid, now, draw, cfg)
  {
    var c :| ChainOf(db, sid, c);
    ActiveIsTail(db, sid, c, spent);
    forall k <- db.tokens | db.tokens[k].session == sid && db.tokens[k].status == ACTIVE
      ensures k == spent
    {
      ActiveIsTail(db, sid, c, k);
    }
    var db1 := db.(tokens := db.tokens[spent := MarkRotated(db.tokens[spent], now + cfg.graceWindow).value]);
    assert InsertRefusal(db1, sid, draw, FreshToken(db.sessions[sid], sid, now, cfg.refreshTtl).expiresAt, now) == None;
  }

  /**
    The verdict is the token's place in the chain of a living session: the tail is usable until
    it expires; the one before it is in grace, and any older one stale, until its own grace ends.
   */
  lemma VerdictByPosition(db: Db, sid: Id, c: seq<TokenHash>, i: nat, now: int)
    requires WellFormed(db) && Live(db, sid) && ChainOf(db, sid, c) && i < |c|
    requires db.sessions[sid].absoluteExpiresAt > now
    ensures
      var t := db.tokens[c[i]];
      LookupToken(db, c[i], now).verdict ==
        if i == |c| - 1 then if t.expiresAt > now then USABLE else DEAD
        else if t.graceUntil.value <= now then REPLAY
        else if i == |c| - 2 then GRACE else STALE
  {
    if i < |c| - 1 { assert db.tokens[c[i]].replacedBy == Some(c[i + 1]); }
  }

  /** A replay ends its session, all of its tokens with it, and no other; the other refusals write nothing. */
  lemma ReplayEndsSession(db: Db, h: TokenHash, now: int, draw: TokenHash, cfg: Config)
    requires WellFormed(db)
    ensures
      var v := LookupToken(db, h, now).verdict;
      var (d, out) := RefreshTx(db, h, now, draw, cfg);
      && (out.ReplayDetected? <==> v == REPLAY)
      && (v == REPLAY ==>
            && h in db.tokens && !Live(d, db.tokens[h].session) && AllRevoked(d, db.tokens[h].session)
            && (forall s <- db.sessions :: s != db.tokens[h].session ==> s in d.sessions && d.sessions[s] == db.sessions[s])
            && (forall k <- db.tokens :: db.tokens[k].session != db.tokens[h].session ==>
                  k in d.tokens && d.tokens[k] == db.tokens[k]))
      && (v in {STALE, DEAD, UNKNOWN} ==> d == db && out == Refused)
  {
    if h in db.tokens && !Live(db, db.tokens[h].session) { assert LookupToken(db, h, now).verdict == DEAD; }
  }

  /** What a rotation leaves behind: the spent row retired and chained, one new row. */
  function Rotated(db: Db, spent: TokenHash, sid: Id, now: int, draw: TokenHash, cfg: Config): Db
    requires spent in db.tokens && sid in db.sessions
  {
    db.(tokens := db.tokens
        [draw := FreshToken(db.sessions[sid], sid, now, cfg.refreshTtl)]
        [spent := db.tokens[spent].(status := ROTATED, graceUntil := Some(now + cfg.graceWindow),
                                    replacedBy := Some(draw))])
  }

  lemma RotatedExtendsChain(db: Db, spent: TokenHash, sid: Id, now: int, draw: TokenHash, cfg: Config,
                            c: seq<TokenHash>)
    requires WellFormed(db) && sid in db.sessions && ChainOf(db, sid, c)
    requires spent == c[|c| - 1] && draw !in db.tokens
    ensures ChainOf(Rotated(db, spent, sid, now, draw, cfg), sid, c + [draw])
  {
    var d := Rotated(db, spent, sid, now, draw, cfg);
    var c' := c + [draw];
    forall h <- d.tokens | d.tokens[h].session == sid ensures h in c' {
      if h == draw { assert c'[|c|] == draw; } else { assert h in c; }
    }
    forall i | 0 <= i < |c'| - 1
      ensures d.tokens[c'[i]].status == ROTATED && d.tokens[c'[i]].graceUntil.Some?
      ensures d.tokens[c'[i]].replacedBy == Some(c'[i + 1])
    {
      if i < |c| - 1 { assert c'[i] == c[i] && c'[i + 1] == c[i + 1] && c[i] != spent; }
    }
  }

  /** Tokens of other sessions are untouched, so their chains stand. */
  lemma FrameSession(db: Db, d: Db, sid: Id)
    requires Referential(db) && Referential(d)
    requires sid in db.sessions && sid in d.sessions && SessionOk(db, sid)
    requires Live(db, sid) == Live(d, sid)
    requires SameTokens(db, d, sid)
    ensures SessionOk(d, sid)
  {
    if Live(db, sid) {
      var c :| ChainOf(db, sid, c);
      assert ChainOf(d, sid, c);
    }
  }

  ghost predicate SameTokens(db: Db, d: Db, sid: Id) {
    && (forall h <- db.tokens :: db.tokens[h].session == sid ==> h in d.tokens && d.tokens[h] == db.tokens[h])
    && (forall h <- d.tokens :: d.tokens[h].session == sid ==> h in db.tokens && db.tokens[h] == d.tokens[h])
  }

  lemma RotatedOwnChain(db: Db, spent: TokenHash, sid: Id, now: int, draw: TokenHash, cfg: Config)
    requires WellFormed(db) && Live(db, sid)
    requires spent in db.tokens && db.tokens[spent].session == sid && db.tokens[spent].status == ACTIVE
    requires draw !in db.tokens
    ensures SessionOk(Rotated(db, spent, sid, now, draw, cfg), sid)
  {
    var c :| ChainOf(db, sid, c);
    ActiveIsTail(db, sid, c, spent);
    RotatedExtendsChain(db, spent, sid, now, draw, cfg, c);
  }

  lemma RotatedChains(db: Db, spent: TokenHash, sid: Id, now: int, draw: TokenHash, cfg: Config, s: Id)
    requires WellFormed(db) && Live(db, sid) && s in db.sessions
    requires spent in db.tokens && db.tokens[spent].session == sid && db.tokens[spent].status == ACTIVE
    requires draw !in db.tokens
    ensures SessionOk(Rotated(db, spent, sid, now, draw, cfg), s)
  {
    if s == sid {
      RotatedOwnChain(db, spent, sid, now, draw, cfg);
    } else {
      RotatedReferential(db, spent, sid, now, draw, cfg);
      FrameSession(db, Rotated(db, spent, sid, now, draw, cfg), s);
    }
  }

  /** The parts of the invariant a rotation keeps beside the chains. */
  lemma RotatedReferential(db: Db, spent: TokenHash, sid: Id, now: int, draw: TokenHash, cfg: Config)
    requires Referential(db) && sid in db.sessions
    requires spent in db.tokens && db.tokens[spent].session == sid && draw !in db.tokens
    ensures Referential(Rotated(db, spent, sid, now, draw, cfg))
  {
    var d := Rotated(db, spent, sid, now, draw, cfg);
    forall h <- d.tokens
      ensures d.tokens[h].session in d.sessions
      ensures d.tokens[h].replacedBy.Some? ==>
                && d.tokens[h].replacedBy.value in d.tokens
                && d.tokens[d.tokens[h].replacedBy.value].session == d.tokens[h].session
    {
    }
  }

  lemma RotatedRows(db: Db, spent: TokenHash, sid: Id, now: int, draw: TokenHash, cfg: Config)
    requires WellFormed(db) && sid in db.sessions
    requires spent in db.tokens && db.tokens[spent].session == sid && draw !in db.tokens
    ensures
      var d := Rotated(db, spent, sid, now, draw, cfg);
      && Referential(d)
      && (forall h <- d.tokens :: d.tokens[h].expiresAt <= d.sessions[d.tokens[h].session].absoluteExpiresAt)
  {
    RotatedReferential(db, spent, sid, now, draw, cfg);
    var d := Rotated(db, spent, sid, now, draw, cfg);
    forall h <- d.tokens ensures d.tokens[h].expiresAt <= d.sessions[d.tokens[h].session].absoluteExpiresAt {
      if h != draw { assert h in db.tokens && d.tokens[h].expiresAt == db.tokens[h].expiresAt; }
    }
  }

  lemma RotatedWellFormed(db: Db, spent: TokenHash, sid: Id, now: int, draw: TokenHash, cfg: Config)
    requires WellFormed(db) && Live(db, sid)
    requires spent in db.tokens && db.tokens[spent].session == sid && db.tokens[spent].status == ACTIVE
    requires draw !in db.tokens
    ensures WellFormed(Rotated(db, spent, sid, now, draw, cfg))
  {
    var d := Rotated(db, spent, sid, now, draw, cfg);
    RotatedRows(db, spent, sid, now, draw, cfg);
    forall s <- d.sessions ensures SessionOk(d, s) {
      RotatedChains(db, spent, sid, now, draw, cfg, s);
    }
  }

  lemma CutWellFormed(db: Db, ids: set<Id>, reason: RevokeReason)
    requires WellFormed(db)
    ensures WellFormed(Cut(db, ids, reason))
    ensures forall s <- db.sessions :: Live(Cut(db, ids, reason), s) <==> Live(db, s) && s !in ids
  {
    var d := Cut(db, ids, reason);
    forall s <- d.sessions ensures SessionOk(d, s) {
      if s in ids && Live(db, s) {
        assert AllRevoked(d, s);
      } else {
        FrameSession(db, d, s);
      }
    }
  }

  lemma OpenWellFormed(db: Db, account: Id, sid: Id, h: TokenHash, now: int, cfg: Config)
    requires WellFormed(db)
    ensures WellFormed(OpenTx(db, account, sid, h, now, cfg).0)
  {
    var d := OpenTx(db, account, sid, h, now, cfg).0;
    if d != db {
      assert SessionOk(d, sid) by { assert ChainOf(d, sid, [h]); }
      forall s <- db.sessions ensures SessionOk(d, s) { FrameSession(db, d, s); }
    }
  }

  // ---------------------------------------------------------------------------
  // What a refresh does, verdict by verdict
  // ---------------------------------------------------------------------------

  /** The token a verdict lets the service rotate. */
  function Spent(v: Lookup): Option<TokenHash> {
    match v.verdict
    case USABLE => v.token
    case GRACE => v.successor
    case _ => None
  }

  /**
    The post-lock verdict is enough: whatever token is rotated is the ACTIVE tail of the
    presented token's living session, and no guard of the database refuses the rotation.
   */
  lemma RefreshNeverRaises(db: Db, h: TokenHash, now: int, draw: TokenHash, cfg: Config)
    requires WellFormed(db) && draw !in db.tokens
    ensures !RefreshTx(db, h, now, draw, cfg).1.Raised?
    ensures
      var v := LookupToken(db, h, now);
      v.verdict in {USABLE, GRACE} ==>
        && h in db.tokens
        && Spent(v).Some? && Spent(v).value in db.tokens
        && db.tokens[Spent(v).value].status == ACTIVE
        && db.tokens[Spent(v).value].session == db.tokens[h].session
        && Live(db, db.tokens[h].session)
        && RefreshTx(db, h, now, draw, cfg) ==
           (Rotated(db, Spent(v).value, db.tokens[h].session, now, draw, cfg),
            Issued(db.sessions[db.tokens[h].session].account, db.tokens[h].session, draw))
  {
    var v := LookupToken(db, h, now);
    if v.verdict in {USABLE, GRACE} {
      var sid := db.tokens[h].session;
      var c :| ChainOf(db, sid, c);
      if v.verdict == GRACE { GraceSuccessorIsTail(db, sid, c, h); }
      RotateSucceeds(db, Spent(v).value, sid, now, draw, cfg);
    }
  }

  lemma RotateUnderUsedDraw(db: Db, spent: TokenHash, now: int, draw: TokenHash, cfg: Config)
    requires Referential(db) && spent in db.tokens && draw in db.tokens
    ensures Rotate(db, spent, now, draw, cfg).Err?
  {
  }

  /** A refresh whose draw already names a row is rolled back whole. */
  lemma RefreshUnderUsedDraw(db: Db, h: TokenHash, now: int, draw: TokenHash, cfg: Config)
    requires WellFormed(db) && draw in db.tokens
    ensures
      var r := RefreshTx(db, h, now, draw, cfg);
      r.1.ReplayDetected? || ((r.1.Raised? || r.1.Refused?) && r.0 == db)
  {
    var v := LookupToken(db, h, now);
    if v.verdict in {USABLE, GRACE} { RotateUnderUsedDraw(db, Spent(v).value, now, draw, cfg); }
  }

  lemma RefreshWellFormed(db: Db, h: TokenHash, now: int, draw: TokenHash, cfg: Config)
    requires WellFormed(db)
    ensures WellFormed(RefreshTx(db, h, now, draw, cfg).0)
  {
    var v := LookupToken(db, h, now);
    if v.verdict == REPLAY {
      CutWellFormed(db, {v.session.value}, REPLAY_DETECTED);
    } else if draw in db.tokens {
      RefreshUnderUsedDraw(db, h, now, draw, cfg);
    } else if v.verdict in {USABLE, GRACE} {
      RefreshNeverRaises(db, h, now, draw, cfg);
      RotatedWellFormed(db, Spent(v).value, db.tokens[h].session, now, draw, cfg);
    }
  }

  // ---------------------------------------------------------------------------
  // Histories
  // ---------------------------------------------------------------------------

  const EMPTY := Db(map[], map[], map[])

  lemma DeactivateWellFormed(db: Db, a: Id)
    requires WellFormed(db)
    ensures WellFormed(DeactivateTx(db, a).0)
  {
    CutWellFormed(db, LiveSessionsOf(db, a), ADMIN);
    var cut := Cut(db, LiveSessionsOf(db, a), ADMIN);
    var d := DeactivateTx(db, a).0;
    forall s <- d.sessions ensures SessionOk(d, s) {
      FrameSession(cut, d, s);
    }
  }

  lemma NewAccountWellFormed(db: Db, a: Id, cfg: Config)
    requires WellFormed(db)
    ensures WellFormed(Apply(db, NewAccount(a), cfg).0)
  {
    var d := Apply(db, NewAccount(a), cfg).0;
    forall s <- d.sessions ensures SessionOk(d, s) {
      FrameSession(db, d, s);
    }
  }

  lemma ApplyWellFormed(db: Db, op: Op, cfg: Config)
    requires WellFormed(db)
    ensures WellFormed(Apply(db, op, cfg).0)
  {
    match op
    case Refresh(h, now, draw) => RefreshWellFormed(db, h, now, draw, cfg);
    case Logout(a, s) => CutWellFormed(db, {s}, LOGOUT);
    case RevokeSeen(a, seen) => CutWellFormed(db, seen * LiveSessionsOf(db, a), LOGOUT_ALL);
    case Open(a, s, h, now) => OpenWellFormed(db, a, s, h, now, cfg);
    case Deactivate(a) => DeactivateWellFormed(db, a);
    case NewAccount(a) => NewAccountWellFormed(db, a, cfg);
  }

  /** The database after a history. */
  function After(db: Db, ops: seq<Op>, cfg: Config): (d: Db)
    requires Referential(db)
    ensures Referential(d)
    decreases |ops|
  {
    if ops == [] then db else After(Apply(db, ops[0], cfg).0, ops[1..], cfg)
  }

  /** What each operation of a history answered. */
  function Answers(db: Db, ops: seq<Op>, cfg: Config): seq<Outcome>
    requires Referential(db)
    decreases |ops|
  {
    if ops == [] then [] else
      var r := Apply(db, ops[0], cfg);
      [r.1] + Answers(r.0, ops[1..], cfg)
  }

  /** In every reachable state each living session carries one chain, tail ACTIVE. */
  lemma {:induction false} AlwaysOneChain(db: Db, ops: seq<Op>, cfg: Config)
    requires WellFormed(db)
    ensures WellFormed(After(db, ops, cfg))
    decreases |ops|
  {
    if ops != [] {
      ApplyWellFormed(db, ops[0], cfg);
      AlwaysOneChain(Apply(db, ops[0], cfg).0, ops[1..], cfg);
    }
  }

  /** Whether `op` presents `h`, is answered with a token, and was judged `v`. */
  predicate Yields(db: Db, op: Op, h: TokenHash, v: Verdict, cfg: Config)
    requires Referential(db)
  {
    && op.Refresh? && op.h == h
    && LookupToken(db, h, op.now).verdict == v
    && Apply(db, op, cfg).1.Issued?
  }

  /** How many operations of a history answer `h` with a token under verdict `v`. */
  function Count(db: Db, ops: seq<Op>, h: TokenHash, v: Verdict, cfg: Config): nat
    requires Referential(db)
    decreases |ops|
  {
    if ops == [] then 0
    else (if Yields(db, ops[0], h, v, cfg) then 1 else 0) + Count(Apply(db, ops[0], cfg).0, ops[1..], h, v, cfg)
  }

  /** Rows are never deleted, never reactivated; a chained successor is never re-pointed. */
  ghost predicate Ages(db: Db, d: Db) {
    && (forall h <- db.tokens ::
          && h in d.tokens
          && d.tokens[h].session == db.tokens[h].session
          && (db.tokens[h].status != ACTIVE ==> d.tokens[h].status != ACTIVE)
          && (db.tokens[h].status == REVOKED ==> d.tokens[h].status == REVOKED)
          && (db.tokens[h].replacedBy.Some? ==> d.tokens[h].replacedBy == db.tokens[h].replacedBy))
    && (forall s <- db.sessions :: s in d.sessions && (!Live(db, s) ==> !Live(d, s)))
  }

  lemma RotatedAges(db: Db, spent: TokenHash, sid: Id, now: int, draw: TokenHash, cfg: Config)
    requires spent in db.tokens && sid in db.sessions && draw !in db.tokens
    requires db.tokens[spent].status == ACTIVE && db.tokens[spent].replacedBy.None?
    ensures Ages(db, Rotated(db, spent, sid, now, draw, cfg))
  {
  }

  lemma CutAges(db: Db, ids: set<Id>, reason: RevokeReason)
    requires Referential(db)
    ensures Ages(db, Cut(db, ids, reason))
  {
  }

  lemma RefreshAges(db: Db, h: TokenHash, now: int, draw: TokenHash, cfg: Config)
    requires WellFormed(db)
    ensures Ages(db, RefreshTx(db, h, now, draw, cfg).0)
  {
    var v := LookupToken(db, h, now);
    if v.verdict == REPLAY {
      CutAges(db, {v.session.value}, REPLAY_DETECTED);
    } else if draw in db.tokens {
      RefreshUnderUsedDraw(db, h, now, draw, cfg);
    } else if v.verdict in {USABLE, GRACE} {
      RefreshNeverRaises(db, h, now, draw, cfg);
      var sid := db.tokens[h].session;
      var c :| ChainOf(db, sid, c);
      ActiveIsTail(db, sid, c, Spent(v).value);
      RotatedAges(db, Spent(v).value, sid, now, draw, cfg);
    }
  }

  lemma LogoutAges(db: Db, a: Id, s: Id)
    requires WellFormed(db)
    ensures Ages(db, LogoutTx(db, a, s).0)
  {
    CutAges(db, {s}, LOGOUT);
  }

  lemma SweepAges(db: Db, a: Id, seen: set<Id>)
    requires WellFormed(db)
    ensures Ages(db, RevokeSeenTx(db, a, seen).0)
  {
    CutAges(db, seen * LiveSessionsOf(db, a), LOGOUT_ALL);
  }

  lemma OpenAges(db: Db, account: Id, sid: Id, h: TokenHash, now: int, cfg: Config)
    requires WellFormed(db)
    ensures Ages(db, OpenTx(db, account, sid, h, now, cfg).0)
  {
  }

  lemma AccountAges(db: Db, a: Id)
    requires WellFormed(db)
    ensures Ages(db, DeactivateTx(db, a).0)
  {
    CutAges(db, LiveSessionsOf(db, a), ADMIN);
  }

  lemma ApplyAges(db: Db, op: Op, cfg: Config)
    requires WellFormed(db)
    ensures Ages(db, Apply(db, op, cfg).0)
  {
    match op
    case Refresh(h, now, draw) => RefreshAges(db, h, now, draw, cfg);
    case Logout(a, s) => LogoutAges(db, a, s);
    case RevokeSeen(a, seen) => SweepAges(db, a, seen);
    case Open(a, s, h, now) => OpenAges(db, a, s, h, now, cfg);
    case Deactivate(a) => AccountAges(db, a);
    case NewAccount(a) =>
  }

  /** Presenting `h` under USABLE is over once `h` has left ACTIVE. */
  ghost predicate UsableOver(db: Db, h: TokenHash) {
    h in db.tokens && db.tokens[h].status != ACTIVE
  }

  /** Presenting `h` under GRACE is over once its successor has left ACTIVE, or `h` is revoked. */
  ghost predicate GraceOver(db: Db, h: TokenHash) {
    && h in db.tokens
    && (db.tokens[h].status == REVOKED
        || (db.tokens[h].status == ROTATED && db.tokens[h].replacedBy.Some?
            && db.tokens[h].replacedBy.value in db.tokens
            && db.tokens[db.tokens[h].replacedBy.value].status != ACTIVE))
  }

  lemma {:induction false} UsableAtMostOnce(db: Db, ops: seq<Op>, h: TokenHash, cfg: Config)
    requires WellFormed(db)
    ensures Count(db, ops, h, USABLE, cfg) <= (if UsableOver(db, h) then 0 else 1)
    decreases |ops|
  {
    if ops != [] {
      var d := Apply(db, ops[0], cfg).0;
      ApplyWellFormed(db, ops[0], cfg);
      ApplyAges(db, ops[0], cfg);
      UsableAtMostOnce(d, ops[1..], h, cfg);
      if Yields(db, ops[0], h, USABLE, cfg) {
        YieldMeansRotation(db, ops[0], h, USABLE, cfg);
      }
    }
  }

  lemma YieldMeansRotation(db: Db, op: Op, h: TokenHash, v: Verdict, cfg: Config)
    requires WellFormed(db) && Yields(db, op, h, v, cfg)
    ensures v in {USABLE, GRACE} && op.draw !in db.tokens
    ensures
      var d := Apply(db, op, cfg).0;
      && (v == USABLE ==> db.tokens[h].status == ACTIVE && UsableOver(d, h))
      && (v == GRACE ==> db.tokens[h].status == ROTATED && !GraceOver(db, h) && GraceOver(d, h))
      && Live(db, db.tokens[h].session)
  {
    if op.draw in db.tokens { RefreshUnderUsedDraw(db, h, op.now, op.draw, cfg); }
    RefreshNeverRaises(db, h, op.now, op.draw, cfg);
  }

  lemma {:induction false} GraceAtMostOnce(db: Db, ops: seq<Op>, h: TokenHash, cfg: Config)
    requires WellFormed(db)
    ensures Count(db, ops, h, GRACE, cfg) <= (if GraceOver(db, h) then 0 else 1)
    decreases |ops|
  {
    if ops != [] {
      var d := Apply(db, ops[0], cfg).0;
      ApplyWellFormed(db, ops[0], cfg);
      ApplyAges(db, ops[0], cfg);
      if GraceOver(db, h) { assert GraceOver(d, h) by { GraceStaysOver(db, d, h); } }
      GraceAtMostOnce(d, ops[1..], h, cfg);
      if Yields(db, ops[0], h, GRACE, cfg) {
        YieldMeansRotation(db, ops[0], h, GRACE, cfg);
      }
    }
  }

  lemma GraceStaysOver(db: Db, d: Db, h: TokenHash)
    requires Ages(db, d) && WellFormed(d) && GraceOver(db, h)
    ensures GraceOver(d, h)
  {
    assert db.tokens[h].status == ROTATED ==> d.tokens[h].status != ACTIVE;
  }

  /** Over any history, one token value is worth at most two answers: one USABLE, one GRACE. */
  lemma AtMostTwoUses(db: Db, ops: seq<Op>, h: TokenHash, cfg: Config)
    requires WellFormed(db)
    ensures Count(db, ops, h, USABLE, cfg) <= 1
    ensures Count(db, ops, h, GRACE, cfg) <= 1
    ensures forall v :: v !in {USABLE, GRACE} ==> Count(db, ops, h, v, cfg) == 0
  {
    UsableAtMostOnce(db, ops, h, cfg);
    GraceAtMostOnce(db, ops, h, cfg);
    forall v | v !in {USABLE, GRACE} ensures Count(db, ops, h, v, cfg) == 0 {
      OtherVerdictsYieldNothing(db, ops, h, v, cfg);
    }
  }

  lemma {:induction false} OtherVerdictsYieldNothing(db: Db, ops: seq<Op>, h: TokenHash, v: Verdict, cfg: Config)
    requires WellFormed(db) && v !in {USABLE, GRACE}
    ensures Count(db, ops, h, v, cfg) == 0
    decreases |ops|
  {
    if ops != [] {
      if Yields(db, ops[0], h, v, cfg) { YieldMeansRotation(db, ops[0], h, v, cfg); }
      ApplyWellFormed(db, ops[0], cfg);
      OtherVerdictsYieldNothing(Apply(db, ops[0], cfg).0, ops[1..], h, v, cfg);
    }
  }

  /** Once a session is revoked, none of its tokens is ever answered with a token again. */
  lemma {:induction false} RevokedForGood(db: Db, ops: seq<Op>, h: TokenHash, v: Verdict, cfg: Config)
    requires WellFormed(db)
    requires h in db.tokens && !Live(db, db.tokens[h].session)
    ensures Count(db, ops, h, v, cfg) == 0
    decreases |ops|
  {
    if ops != [] {
      if Yields(db, ops[0], h, v, cfg) { YieldMeansRotation(db, ops[0], h, v, cfg); }
      var d := Apply(db, ops[0], cfg).0;
      ApplyWellFormed(db, ops[0], cfg);
      assert h in d.tokens && !Live(d, d.tokens[h].session) by { ApplyAges(db, ops[0], cfg); }
      RevokedForGood(d, ops[1..], h, v, cfg);
    }
  }
}
