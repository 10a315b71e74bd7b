/**
  Refresh-token sessions: the tables of db/schema/004_sessions.sql, the triggers that guard
  them, and the service that drives them (src/auth/session.service.ts, and `openSession` of
  src/auth/auth.service.ts).

  A token row is keyed by its hash, which the schema makes unique; that key also plays the
  role of the row's id.  `now` is the transaction's start time, as PostgreSQL's now() is, so
  successive transactions need not carry increasing times.
 */
module Sessions {
  import opened Arithmetic
  import opened Wrappers

  type Id = nat
  type TokenHash = string

  datatype TokenStatus = ACTIVE | ROTATED | REVOKED

  datatype Token = Token(
    session: Id,
    status: TokenStatus,
    graceUntil: Option<int>,
    replacedBy: Option<TokenHash>,
    expiresAt: int)

  datatype RevokeReason = LOGOUT | LOGOUT_ALL | REPLAY_DETECTED | ADMIN

  /** A session is alive while it carries no revocation. */
  datatype Session = Session(account: Id, absoluteExpiresAt: int, revoked: Option<RevokeReason>)

  /** `accounts` maps each account to whether it is active. */
  datatype Db = Db(
    accounts: map<Id, bool>,
    sessions: map<Id, Session>,
    tokens: map<TokenHash, Token>)

  datatype RawConfig = RawConfig(graceWindow: int, refreshTtl: int, sessionTtl: int)

  /** Every duration is a strictly positive integer, or the service does not boot. */
  type Config = c: RawConfig | c.graceWindow > 0 && c.refreshTtl > 0 && c.sessionTtl > 0
    witness RawConfig(1, 1, 1)

  /** What the database raises when a guard refuses a write. */
  datatype DbError =
    | UniqueViolation
    | FrozenRow
    | RotationRewritten
    | LinkIsSetOnce
    | DeadSession
    | DeadAccount
    | TokenOutlivesSession

  datatype Outcome =
    | Issued(account: Id, session: Id, refreshToken: TokenHash)
    | Refused
    | ReplayDetected
    | RevokedCount(n: nat)
    | Raised(error: DbError)

  // ---------------------------------------------------------------------------
  // The verdict
  // ---------------------------------------------------------------------------

  datatype Verdict = USABLE | GRACE | STALE | REPLAY | DEAD | UNKNOWN

  datatype Lookup = Lookup(
    token: Option<TokenHash>,
    session: Option<Id>,
    account: Option<Id>,
    successor: Option<TokenHash>,
    verdict: Verdict)

  /** The foreign keys; a successor belongs to the same session. */
  predicate Referential(db: Db) {
    && (forall s <- db.sessions :: db.sessions[s].account in db.accounts)
    && (forall h <- db.tokens ::
          && db.tokens[h].session in db.sessions
          && (db.tokens[h].replacedBy.Some? ==>
                && db.tokens[h].replacedBy.value in db.tokens
                && db.tokens[db.tokens[h].replacedBy.value].session == db.tokens[h].session))
  }

  predicate Live(db: Db, sid: Id) {
    sid in db.sessions && db.sessions[sid].revoked.None?
  }

  predicate IsActive(db: Db, h: TokenHash) {
    h in db.tokens && db.tokens[h].status == ACTIVE
  }

  function VerdictOf(db: Db, t: Token, now: int): Verdict
    requires Referential(db) && t.session in db.sessions
    ensures VerdictOf(db, t, now) == GRACE ==> t.replacedBy.Some?
  {
    var s := db.sessions[t.session];
    if !db.accounts[s.account] || s.revoked.Some? || s.absoluteExpiresAt <= now then
      DEAD
    else if t.status == ACTIVE && t.expiresAt > now then
      USABLE
    else if t.status == ROTATED && t.graceUntil.Some? && t.graceUntil.value > now then
      if t.replacedBy.Some? && IsActive(db, t.replacedBy.value) then GRACE else STALE
    else if t.status == ACTIVE then
      DEAD
    else
      REPLAY
  }

  function LookupToken(db: Db, h: TokenHash, now: int): Lookup
    requires Referential(db)
  {
    if h !in db.tokens then
      Lookup(None, None, None, None, UNKNOWN)
    else
      var t := db.tokens[h];
      Lookup(Some(h), Some(t.session), Some(db.sessions[t.session].account), t.replacedBy,
             VerdictOf(db, t, now))
  }

  // ---------------------------------------------------------------------------
  // The guarded writes
  // ---------------------------------------------------------------------------

  /** `UPDATE … SET status = 'ROTATED', grace_until = g`, under guard_refresh_token_update. */
  function MarkRotated(t: Token, g: int): Result<Token, DbError> {
    match t.status
    case REVOKED => Err(FrozenRow)
    case ACTIVE => Ok(t.(status := ROTATED, graceUntil := Some(g)))
    case ROTATED => if t.graceUntil == Some(g) then Ok(t) else Err(RotationRewritten)
  }

  /** `UPDATE … SET replaced_by_id = successor`, under the same guard. */
  function LinkSuccessor(t: Token, successor: TokenHash): Result<Token, DbError> {
    if t.status == REVOKED then Err(FrozenRow)
    else if t.replacedBy == Some(successor) then Ok(t)
    else if t.status == ROTATED && t.replacedBy.None? then Ok(t.(replacedBy := Some(successor)))
    else Err(LinkIsSetOnce)
  }

  /** The refusals an INSERT into session_refresh_tokens meets; None when the row may be born. */
  function InsertRefusal(db: Db, sid: Id, h: TokenHash, expiresAt: int, now: int): Option<DbError> {
    if !Live(db, sid) then Some(DeadSession)
    else if db.sessions[sid].absoluteExpiresAt <= now then Some(DeadSession)
    else if expiresAt > db.sessions[sid].absoluteExpiresAt then Some(TokenOutlivesSession)
    else if expiresAt <= now then Some(TokenOutlivesSession)
    else if h in db.tokens then Some(UniqueViolation)
    else if exists k <- db.tokens :: db.tokens[k].session == sid && db.tokens[k].status == ACTIVE then
      Some(UniqueViolation)
    else None
  }

  /** A session's successor token: it never outlives the session. */
  function FreshToken(s: Session, sid: Id, now: int, ttl: int): Token {
    Token(sid, ACTIVE, None, None, Min(now + ttl, s.absoluteExpiresAt))
  }

  /** The rotation transaction on values: retire `spent`, insert `draw`, chain them. */
  function Rotate(db: Db, spent: TokenHash, now: int, draw: TokenHash, cfg: Config): (r: Result<Db, DbError>)
    requires Referential(db) && spent in db.tokens
    ensures r.Ok? ==> Referential(r.value)
  {
    var sid := db.tokens[spent].session;
    match MarkRotated(db.tokens[spent], now + cfg.graceWindow)
    case Err(e) => Err(e)
    case Ok(retired) =>
      var db1 := db.(tokens := db.tokens[spent := retired]);
      var born := FreshToken(db.sessions[sid], sid, now, cfg.refreshTtl);
      match InsertRefusal(db1, sid, draw, born.expiresAt, now)
      case Some(e) => Err(e)
      case None =>
        var db2 := db1.(tokens := db1.tokens[draw := born]);
        match LinkSuccessor(db2.tokens[spent], draw)
        case Err(e) => Err(e)
        case Ok(linked) => Ok(db2.(tokens := db2.tokens[spent := linked]))
  }

  /** Revoke every living session of `ids`; the trigger cascades on their tokens. */
  function Cut(db: Db, ids: set<Id>, reason: RevokeReason): (r: Db)
    requires Referential(db)
    ensures Referential(r)
  {
    var hit := set s | s in ids && Live(db, s);
    Db(db.accounts, CutSessions(db.sessions, hit, reason), CutTokens(db.tokens, hit))
  }

  function CutSessions(sessions: map<Id, Session>, hit: set<Id>, reason: RevokeReason): map<Id, Session> {
    map s <- sessions :: if s in hit then sessions[s].(revoked := Some(reason)) else sessions[s]
  }

  function CutTokens(tokens: map<TokenHash, Token>, hit: set<Id>): map<TokenHash, Token> {
    map h <- tokens :: if tokens[h].session in hit then tokens[h].(status := REVOKED) else tokens[h]
  }

  function LiveSessionsOf(db: Db, account: Id): set<Id> {
    set s | s in db.sessions && db.sessions[s].account == account && Live(db, s)
  }

  // ---------------------------------------------------------------------------
  // One request as one serial transaction
  // ---------------------------------------------------------------------------

  /** COMMIT what a rotation wrote, or ROLLBACK on the error it met. */
  function RotateOrRollback(db: Db, spent: TokenHash, now: int, draw: TokenHash, cfg: Config): (r: (Db, Outcome))
    requires Referential(db) && spent in db.tokens
    ensures Referential(r.0)
  {
    match Rotate(db, spent, now, draw, cfg)
    case Ok(db') =>
      var sid := db.tokens[spent].session;
      (db', Issued(db.sessions[sid].account, sid, draw))
    case Err(e) => (db, Raised(e))
  }

  function RefreshTx(db: Db, h: TokenHash, now: int, draw: TokenHash, cfg: Config): (r: (Db, Outcome))
    requires Referential(db)
    ensures Referential(r.0)
  {
    var v := LookupToken(db, h, now);
    match v.verdict
    case USABLE => RotateOrRollback(db, v.token.value, now, draw, cfg)
    case GRACE => RotateOrRollback(db, v.successor.value, now, draw, cfg)
    case STALE => (db, Refused)
    case REPLAY => (Cut(db, {v.session.value}, REPLAY_DETECTED), ReplayDetected)
    case DEAD => (db, Refused)
    case UNKNOWN => (db, Refused)
  }

  function LogoutTx(db: Db, account: Id, sid: Id): (Db, Outcome)
    requires Referential(db)
  {
    if sid in LiveSessionsOf(db, account) then (Cut(db, {sid}, LOGOUT), RevokedCount(1))
    else (db, Refused)
  }

  /**
    `revokeAll` over the sessions its statement saw when it started: rows revoked meanwhile
    are skipped, rows born meanwhile are not in `seen`.
   */
  function RevokeSeenTx(db: Db, account: Id, seen: set<Id>): (Db, Outcome)
    requires Referential(db)
  {
    var hit := seen * LiveSessionsOf(db, account);
    (Cut(db, hit, LOGOUT_ALL), RevokedCount(|hit|))
  }

  function RevokeAllTx(db: Db, account: Id): (Db, Outcome)
    requires Referential(db)
  {
    RevokeSeenTx(db, account, LiveSessionsOf(db, account))
  }

  function OpenTx(db: Db, account: Id, sid: Id, h: TokenHash, now: int, cfg: Config): (Db, Outcome) {
    if account !in db.accounts || !db.accounts[account] then (db, Raised(DeadAccount))
    else if sid in db.sessions || h in db.tokens then (db, Raised(UniqueViolation))
    else
      var s := Session(account, now + cfg.sessionTtl, None);
      (db.(sessions := db.sessions[sid := s],
       tokens := db.tokens[h := FreshToken(s, sid, now, cfg.refreshTtl)]),
       Issued(account, sid, h))
  }

  /** Deactivating an account cuts its sessions in the same transaction. */
  function DeactivateTx(db: Db, account: Id): (Db, Outcome)
    requires Referential(db)
  {
    if account !in db.accounts then (db, Refused)
    else
      var cut := Cut(db, LiveSessionsOf(db, account), ADMIN);
      (cut.(accounts := cut.accounts[account := false]), Refused)
  }

  datatype Op =
    | Refresh(h: TokenHash, now: int, draw: TokenHash)
    | Logout(account: Id, session: Id)
    | RevokeSeen(account: Id, seen: set<Id>)
    | Open(account: Id, session: Id, h: TokenHash, now: int)
    | Deactivate(account: Id)
    | NewAccount(account: Id)

  function Apply(db: Db, op: Op, cfg: Config): (r: (Db, Outcome))
    requires Referential(db)
    ensures Referential(r.0)
  {
    match op
    case Refresh(h, now, draw) => RefreshTx(db, h, now, draw, cfg)
    case Logout(a, s) => LogoutTx(db, a, s)
    case RevokeSeen(a, seen) => RevokeSeenTx(db, a, seen)
    case Open(a, s, h, now) => OpenTx(db, a, s, h, now, cfg)
    case Deactivate(a) => DeactivateTx(db, a)
    case NewAccount(a) =>
      if a in db.accounts then (db, Raised(UniqueViolation))
      else (db.(accounts := db.accounts[a := true]), Refused)
  }

  // ---------------------------------------------------------------------------
  // The invariant: one chain per living session
  // ---------------------------------------------------------------------------

  /**
    `c` lists every token of the session exactly once: each one rotated into the next, the
    last one ACTIVE and not yet replaced.
   */
  ghost predicate ChainOf(db: Db, sid: Id, c: seq<TokenHash>) {
    && c != []
    && (forall i :: 0 <= i < |c| ==> c[i] in db.tokens && db.tokens[c[i]].session == sid)
    && (forall i, j :: 0 <= i < j < |c| ==> c[i] != c[j])
    && (forall h <- db.tokens :: db.tokens[h].session == sid ==> h in c)
    && (forall i :: 0 <= i < |c| - 1 ==>
                      && db.tokens[c[i]].status == ROTATED
                      && db.tokens[c[i]].graceUntil.Some?
                      && db.tokens[c[i]].replacedBy == Some(c[i + 1]))
    && db.tokens[c[|c| - 1]].status == ACTIVE
    && db.tokens[c[|c| - 1]].replacedBy.None?
  }

  ghost predicate AllRevoked(db: Db, sid: Id) {
    forall h <- db.tokens :: db.tokens[h].session == sid ==> db.tokens[h].status == REVOKED
  }

  ghost predicate SessionOk(db: Db, sid: Id)
    requires sid in db.sessions
  {
    if Live(db, sid) then exists c :: ChainOf(db, sid, c) else AllRevoked(db, sid)
  }

  ghost predicate WellFormed(db: Db) {
    && Referential(db)
    && (forall s <- db.sessions :: SessionOk(db, s))
    && (forall s <- db.sessions :: Live(db, s) ==> db.accounts[db.sessions[s].account])
    && (forall h <- db.tokens :: db.tokens[h].expiresAt <= db.sessions[db.tokens[h].session].absoluteExpiresAt)
  }
}
