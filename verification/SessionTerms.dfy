/**
  The terms sessions and tokens live under: what an answer bearing a token writes, how long the
  token it bears is worth something, and what ends a session.  Every row is stated in full.
 */
module SessionTerms {
  import opened Wrappers
  import opened Sessions
  import opened SessionHistories

  // ---------------------------------------------------------------------------
  // What an answer bearing a token writes
  // ---------------------------------------------------------------------------

  /** A token of the session born at `now`: its own term, unless the session ends first. */
  function BornRow(sid: Id, now: int, deadline: int, cfg: Config): Token {
    Token(sid, ACTIVE, None, None, if now + cfg.refreshTtl < deadline then now + cfg.refreshTtl else deadline)
  }

  /** `spent` is retired for `draw`, in grace from `now` on. */
  function Retired(t: Token, draw: TokenHash, now: int, cfg: Config): Token {
    Token(t.session, ROTATED, Some(now + cfg.graceWindow), Some(draw), t.expiresAt)
  }

  /** What a served refresh writes: the row it drew, and the row it retired. */
  ghost predicate Renews(db: Db, d: Db, h: TokenHash, now: int, draw: TokenHash, spent: TokenHash, cfg: Config) {
    && h in db.tokens && spent in db.tokens && draw !in db.tokens
    && db.tokens[h].session in db.sessions && db.tokens[spent].session == db.tokens[h].session
    && db.tokens[spent].status == ACTIVE && (spent == h || db.tokens[h].replacedBy == Some(spent))
    && (d.accounts, d.sessions) == (db.accounts, db.sessions)
    && d.tokens == db.tokens
         [draw := BornRow(db.tokens[h].session, now, db.sessions[db.tokens[h].session].absoluteExpiresAt, cfg)]
         [spent := Retired(db.tokens[spent], draw, now, cfg)]
  }

  /** A refresh answered with a token has retired the ACTIVE token of the session for the one it drew, and nothing else. */
  lemma RefreshRenews(db: Db, h: TokenHash, now: int, draw: TokenHash, cfg: Config) returns (spent: TokenHash)
    requires WellFormed(db) && RefreshTx(db, h, now, draw, cfg).1.Issued?
    ensures Renews(db, RefreshTx(db, h, now, draw, cfg).0, h, now, draw, spent, cfg)
    ensures RefreshTx(db, h, now, draw, cfg).1 == Issued(db.sessions[db.tokens[h].session].account, db.tokens[h].session, draw)
  {
    if draw in db.tokens { RefreshUnderUsedDraw(db, h, now, draw, cfg); }
    RefreshNeverRaises(db, h, now, draw, cfg);
    spent := Spent(LookupToken(db, h, now)).value;
  }

  /** A login is served exactly for an active account and new draws, and opens one session with one token. */
  lemma LoginOpens(db: Db, account: Id, sid: Id, h: TokenHash, now: int, cfg: Config)
    ensures
      var (d, out) := OpenTx(db, account, sid, h, now, cfg);
      var served := account in db.accounts && db.accounts[account] && sid !in db.sessions && h !in db.tokens;
      && (out == Issued(account, sid, h) <==> served)
      && (out.Issued? ==> served)
      && (served ==>
            d == Db(db.accounts,
                    db.sessions[sid := Session(account, now + cfg.sessionTtl, None)],
                    db.tokens[h := BornRow(sid, now, now + cfg.sessionTtl, cfg)]))
      && (!served ==> d == db && out.Raised?)
  {
  }

  // ---------------------------------------------------------------------------
  // Terms are for ever
  // ---------------------------------------------------------------------------

  /** No row's term is ever rewritten, and a retired token keeps its grace. */
  ghost predicate KeepsTerms(db: Db, d: Db) {
    && (forall h <- db.tokens ::
          && h in d.tokens
          && d.tokens[h].session == db.tokens[h].session && d.tokens[h].expiresAt == db.tokens[h].expiresAt
          && (db.tokens[h].status != ACTIVE ==> d.tokens[h].graceUntil == db.tokens[h].graceUntil))
    && (forall s <- db.sessions ::
          && s in d.sessions
          && d.sessions[s].account == db.sessions[s].account
          && d.sessions[s].absoluteExpiresAt == db.sessions[s].absoluteExpiresAt)
  }

  lemma CutKeepsTerms(db: Db, ids: set<Id>, reason: RevokeReason)
    requires Referential(db)
    ensures KeepsTerms(db, Cut(db, ids, reason))
  {
  }

  lemma RenewalKeepsTerms(db: Db, d: Db, h: TokenHash, now: int, draw: TokenHash, spent: TokenHash, cfg: Config)
    requires Renews(db, d, h, now, draw, spent, cfg)
    ensures KeepsTerms(db, d)
  {
  }

  lemma RefreshKeepsTerms(db: Db, h: TokenHash, now: int, draw: TokenHash, cfg: Config)
    requires WellFormed(db)
    ensures KeepsTerms(db, RefreshTx(db, h, now, draw, cfg).0)
  {
    var v := LookupToken(db, h, now);
    if v.verdict == REPLAY {
      CutKeepsTerms(db, {v.session.value}, REPLAY_DETECTED);
    } else if draw in db.tokens {
      RefreshUnderUsedDraw(db, h, now, draw, cfg);
    } else if v.verdict in {USABLE, GRACE} {
      assert RefreshTx(db, h, now, draw, cfg).1.Issued? by { RefreshNeverRaises(db, h, now, draw, cfg); }
      var spent := RefreshRenews(db, h, now, draw, cfg);
      RenewalKeepsTerms(db, RefreshTx(db, h, now, draw, cfg).0, h, now, draw, spent, cfg);
    }
  }

  lemma SweepKeepsTerms(db: Db, a: Id, seen: set<Id>)
    requires WellFormed(db)
    ensures KeepsTerms(db, RevokeSeenTx(db, a, seen).0)
  {
    CutKeepsTerms(db, seen * LiveSessionsOf(db, a), LOGOUT_ALL);
  }

  lemma DeactivateKeepsTerms(db: Db, a: Id)
    requires WellFormed(db)
    ensures KeepsTerms(db, DeactivateTx(db, a).0)
  {
    CutKeepsTerms(db, LiveSessionsOf(db, a), ADMIN);
  }

  lemma LogoutKeepsTerms(db: Db, a: Id, s: Id)
    requires WellFormed(db)
    ensures KeepsTerms(db, LogoutTx(db, a, s).0)
  {
    CutKeepsTerms(db, {s}, LOGOUT);
  }

  lemma LoginKeepsTerms(db: Db, a: Id, s: Id, h: TokenHash, now: int, cfg: Config)
    requires WellFormed(db)
    ensures KeepsTerms(db, OpenTx(db, a, s, h, now, cfg).0)
  {
    LoginOpens(db, a, s, h, now, cfg);
  }

  lemma ApplyKeepsTerms(db: Db, op: Op, cfg: Config)
    requires WellFormed(db)
    ensures KeepsTerms(db, Apply(db, op, cfg).0)
  {
    match op
    case Refresh(h, now, draw) => RefreshKeepsTerms(db, h, now, draw, cfg);
    case Logout(a, s) => LogoutKeepsTerms(db, a, s);
    case RevokeSeen(a, seen) => SweepKeepsTerms(db, a, seen);
    case Open(a, s, h, now) => LoginKeepsTerms(db, a, s, h, now, cfg);
    case Deactivate(a) => DeactivateKeepsTerms(db, a);
    case NewAccount(a) =>
  }

  lemma {:induction false} HistoryKeepsTerms(db: Db, ops: seq<Op>, cfg: Config)
    requires WellFormed(db)
    ensures KeepsTerms(db, After(db, ops, cfg))
    decreases |ops|
  {
    if ops != [] {
      var d := Apply(db, ops[0], cfg).0;
      ApplyWellFormed(db, ops[0], cfg);
      ApplyKeepsTerms(db, ops[0], cfg);
      ApplyAges(db, ops[0], cfg);
      HistoryKeepsTerms(d, ops[1..], cfg);
    }
  }

  // ---------------------------------------------------------------------------
  // How long a token is worth something
  // ---------------------------------------------------------------------------

  /** A token that is not revoked is one of a living session. */
  lemma LivingToken(db: Db, h: TokenHash)
    requires WellFormed(db) && h in db.tokens && db.tokens[h].status != REVOKED
    ensures Live(db, db.tokens[h].session)
  {
    assert SessionOk(db, db.tokens[h].session);
  }

  /** A token that was never used is worth one answer until its own term or its session's, and nothing from then on. */
  lemma UnusedToken(db: Db, h: TokenHash, now: int, draw: TokenHash, cfg: Config)
    requires WellFormed(db) && h in db.tokens && db.tokens[h].status == ACTIVE
    ensures
      var deadline := db.sessions[db.tokens[h].session].absoluteExpiresAt;
      if now < db.tokens[h].expiresAt && now < deadline then
        && LookupToken(db, h, now).verdict == USABLE
        && (draw !in db.tokens ==> RefreshTx(db, h, now, draw, cfg).1.Issued?)
      else
        LookupToken(db, h, now).verdict == DEAD && RefreshTx(db, h, now, draw, cfg) == (db, Refused)
  {
    var sid := db.tokens[h].session;
    LivingToken(db, h);
    if draw !in db.tokens { RefreshNeverRaises(db, h, now, draw, cfg); }
  }

  /** A retired token of a living session is in grace, or stale, until its grace ends, and a replay from then on. */
  lemma RetiredToken(db: Db, h: TokenHash, now: int)
    requires WellFormed(db) && h in db.tokens && db.tokens[h].status == ROTATED
    ensures db.tokens[h].graceUntil.Some? && Live(db, db.tokens[h].session)
    ensures
      var v := LookupToken(db, h, now).verdict;
      if db.sessions[db.tokens[h].session].absoluteExpiresAt <= now then v == DEAD
      else if db.tokens[h].graceUntil.value <= now then v == REPLAY
      else v == GRACE || v == STALE
  {
    var sid := db.tokens[h].session;
    LivingToken(db, h);
    var c :| ChainOf(db, sid, c);
    var i :| 0 <= i < |c| && c[i] == h;
    assert i < |c| - 1;
  }

  /** The token an answer bears. */
  function BornOf(op: Op): TokenHash
    requires op.Refresh? || op.Open?
  {
    if op.Refresh? then op.draw else op.h
  }

  /** An answered token's row, and its session's deadline: the smaller of the two terms, to the second. */
  lemma TermsAtBirth(db: Db, op: Op, cfg: Config)
    requires WellFormed(db) && (op.Refresh? || op.Open?) && Apply(db, op, cfg).1.Issued?
    ensures
      var (d, out) := Apply(db, op, cfg);
      && out.refreshToken == BornOf(op) && out.session in d.sessions && BornOf(op) !in db.tokens
      && BornOf(op) in d.tokens && d.tokens[BornOf(op)].session == out.session && d.tokens[BornOf(op)].status == ACTIVE
      && d.tokens[BornOf(op)].expiresAt ==
           (if op.now + cfg.refreshTtl <= d.sessions[out.session].absoluteExpiresAt then op.now + cfg.refreshTtl
            else d.sessions[out.session].absoluteExpiresAt)
      && (op.Open? ==> d.sessions[out.session].absoluteExpiresAt == op.now + cfg.sessionTtl)
  {
    if op.Refresh? {
      var spent := RefreshRenews(db, op.h, op.now, op.draw, cfg);
    } else {
      LoginOpens(db, op.account, op.session, op.h, op.now, cfg);
    }
  }

  /**
    Over any history after its birth, a token presented while nobody has used or revoked it is
    served before one refresh term and its session's deadline have passed, and refused from
    then on, with nothing written.
   */
  lemma IdleTokenExpires(db: Db, op: Op, ops: seq<Op>, now: int, draw: TokenHash, cfg: Config)
    requires WellFormed(db) && (op.Refresh? || op.Open?) && Apply(db, op, cfg).1.Issued?
    ensures BornOf(op) in After(Apply(db, op, cfg).0, ops, cfg).tokens
    ensures
      var (d, out) := Apply(db, op, cfg);
      var later := After(d, ops, cfg);
      && out.session in d.sessions
      && (later.tokens[BornOf(op)].status == ACTIVE ==>
            if now < op.now + cfg.refreshTtl && now < d.sessions[out.session].absoluteExpiresAt then
              && LookupToken(later, BornOf(op), now).verdict == USABLE
              && (draw !in later.tokens ==> RefreshTx(later, BornOf(op), now, draw, cfg).1.Issued?)
            else RefreshTx(later, BornOf(op), now, draw, cfg) == (later, Refused))
  {
    var (d, out) := Apply(db, op, cfg);
    var later := After(d, ops, cfg);
    ApplyWellFormed(db, op, cfg);
    assert WellFormed(later) by { AlwaysOneChain(d, ops, cfg); }
    TermsAtBirth(db, op, cfg);
    assert KeepsTerms(d, later) by { HistoryKeepsTerms(d, ops, cfg); }
    if later.tokens[BornOf(op)].status == ACTIVE { UnusedToken(later, BornOf(op), now, draw, cfg); }
  }

  /**
    Over any history after it was retired, a token of a session still within its deadline is a
    replay exactly once the grace window since its retirement has passed.
   */
  lemma GraceEndsOnTime(db: Db, h: TokenHash, born: int, drawn: TokenHash, ops: seq<Op>, now: int, cfg: Config)
    requires WellFormed(db) && RefreshTx(db, h, born, drawn, cfg).1.Issued? && h in db.tokens && db.tokens[h].status == ACTIVE
    ensures h in After(RefreshTx(db, h, born, drawn, cfg).0, ops, cfg).tokens
    ensures
      var later := After(RefreshTx(db, h, born, drawn, cfg).0, ops, cfg);
      later.tokens[h].status == ROTATED && now < later.sessions[later.tokens[h].session].absoluteExpiresAt ==>
        (LookupToken(later, h, now).verdict == REPLAY <==> now >= born + cfg.graceWindow)
  {
    var d := RefreshTx(db, h, born, drawn, cfg).0;
    var later := After(d, ops, cfg);
    RefreshWellFormed(db, h, born, drawn, cfg);
    assert WellFormed(later) by { AlwaysOneChain(d, ops, cfg); }
    var spent := RefreshRenews(db, h, born, drawn, cfg);
    assert spent == h by { ActiveIsNotReplaced(db, h); }
    assert KeepsTerms(d, later) by { HistoryKeepsTerms(d, ops, cfg); }
    if later.tokens[h].status == ROTATED { RetiredToken(later, h, now); }
  }

  lemma ActiveIsNotReplaced(db: Db, h: TokenHash)
    requires WellFormed(db) && h in db.tokens && db.tokens[h].status == ACTIVE
    ensures db.tokens[h].replacedBy.None?
  {
    var sid := db.tokens[h].session;
    LivingToken(db, h);
    var c :| ChainOf(db, sid, c);
    ActiveIsTail(db, sid, c, h);
  }

  /** A token is unknown when it has no row, and dead with its account, its session or its session's deadline. */
  lemma WorthNothing(db: Db, h: TokenHash, now: int)
    requires Referential(db)
    ensures LookupToken(db, h, now).verdict == UNKNOWN <==> h !in db.tokens
    ensures
      h in db.tokens && (!Live(db, db.tokens[h].session) || db.sessions[db.tokens[h].session].absoluteExpiresAt <= now
                         || !db.accounts[db.sessions[db.tokens[h].session].account]) ==>
        LookupToken(db, h, now).verdict == DEAD
  {
  }

  // ---------------------------------------------------------------------------
  // What ends a session
  // ---------------------------------------------------------------------------

  /** Exactly these sessions ended for this reason, each with all its tokens; every other row is as it was. */
  ghost predicate Ended(db: Db, d: Db, ids: set<Id>, reason: RevokeReason) {
    && d.sessions.Keys == db.sessions.Keys && d.tokens.Keys == db.tokens.Keys
    && (forall s <- db.sessions ::
          d.sessions[s] == if s in ids then Session(db.sessions[s].account, db.sessions[s].absoluteExpiresAt, Some(reason))
                           else db.sessions[s])
    && (forall h <- db.tokens ::
          d.tokens[h] == if db.tokens[h].session in ids then db.tokens[h].(status := REVOKED) else db.tokens[h])
  }

  /** A logout ends the session named, provided it is the account's own and alive; otherwise nothing changes. */
  lemma LogoutEnds(db: Db, account: Id, sid: Id)
    requires Referential(db)
    ensures
      var (d, out) := LogoutTx(db, account, sid);
      var own := sid in db.sessions && db.sessions[sid].account == account && db.sessions[sid].revoked.None?;
      && d.accounts == db.accounts
      && (if own then out == RevokedCount(1) && Ended(db, d, {sid}, LOGOUT) else out == Refused && d == db)
  {
  }

  function LivingOf(db: Db, account: Id): set<Id> {
    set s | s in db.sessions && db.sessions[s].account == account && db.sessions[s].revoked.None?
  }

  /** `revokeAll` ends the living sessions of the account, all of them and no other, and counts them. */
  lemma RevokeAllEnds(db: Db, account: Id)
    requires Referential(db)
    ensures
      var (d, out) := RevokeAllTx(db, account);
      var own := LivingOf(db, account);
      d.accounts == db.accounts && out == RevokedCount(|own|) && Ended(db, d, own, LOGOUT_ALL)
  {
    var own := LivingOf(db, account);
    assert LiveSessionsOf(db, account) == own && own * own == own;
  }

  /** A replay ends the presented token's session. */
  lemma ReplayEnds(db: Db, h: TokenHash, now: int, draw: TokenHash, cfg: Config)
    requires WellFormed(db) && RefreshTx(db, h, now, draw, cfg).1 == ReplayDetected
    ensures h in db.tokens && Ended(db, RefreshTx(db, h, now, draw, cfg).0, {db.tokens[h].session}, REPLAY_DETECTED)
  {
    assert LookupToken(db, h, now).verdict == REPLAY;
    if !Live(db, db.tokens[h].session) { WorthNothing(db, h, now); }
  }

  /** Deactivating an account ends its living sessions and closes the account, and nothing else. */
  lemma DeactivationEnds(db: Db, account: Id)
    requires Referential(db) && account in db.accounts
    ensures
      var d := DeactivateTx(db, account).0;
      var own := LivingOf(db, account);
      d.accounts == db.accounts[account := false] && Ended(db, d, own, ADMIN)
  {
    var own := LivingOf(db, account);
    assert LiveSessionsOf(db, account) == own;
  }
}
