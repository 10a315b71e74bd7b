/**
  The service as it writes: one statement after the other on the three tables, with ROLLBACK
  on any refusal of the database.  Each method is tied to the serial transaction it stands for.
  The throttle in front of `refresh` is the subject of LoginThrottle; a throttled request
  never reaches these tables.
 */
module SessionTables {
  import opened Wrappers
  import opened Sessions

  class SessionService {
    const cfg: Config
    var accounts: map<Id, bool>
    var sessions: map<Id, Session>
    var tokens: map<TokenHash, Token>

    function Tables(): Db
      reads this
    {
      Db(accounts, sessions, tokens)
    }

    constructor (cfg: Config, db: Db)
      ensures this.cfg == cfg && Tables() == db
    {
      this.cfg := cfg;
      accounts, sessions, tokens := db.accounts, db.sessions, db.tokens;
    }

    /** Retire, insert, chain: three statements, abandoned at the first refusal. */
    method Rotate(spent: TokenHash, now: int, draw: TokenHash) returns (error: Option<DbError>)
      requires Referential(Tables()) && spent in tokens
      modifies `tokens
      ensures
        match Sessions.Rotate(old(Tables()), spent, now, draw, cfg)
        case Ok(db) => error.None? && Tables() == db
        case Err(e) => error == Some(e)
    {
      var sid := tokens[spent].session;
      match MarkRotated(tokens[spent], now + cfg.graceWindow) {
        case Err(e) => return Some(e);
        case Ok(retired) => tokens := tokens[spent := retired];
      }
      var born := FreshToken(sessions[sid], sid, now, cfg.refreshTtl);
      var refusal := InsertRefusal(Tables(), sid, draw, born.expiresAt, now);
      if refusal.Some? { return refusal; }
      tokens := tokens[draw := born];
      match LinkSuccessor(tokens[spent], draw) {
        case Err(e) => return Some(e);
        case Ok(linked) => tokens := tokens[spent := linked];
      }
      return None;
    }

    method RotateAndCommit(spent: TokenHash, account: Id, session: Id, now: int, draw: TokenHash)
      returns (out: Outcome)
      requires Referential(Tables()) && spent in tokens
      requires session == tokens[spent].session && account == sessions[session].account
      modifies `tokens
      ensures (Tables(), out) == RotateOrRollback(old(Tables()), spent, now, draw, cfg)
    {
      var begin := tokens;
      var error := Rotate(spent, now, draw);
      if error.Some? {
        tokens := begin;
        return Raised(error.value);
      }
      return Issued(account, session, draw);
    }

    /** `draw` is the hash of the random value drawn should a successor be needed. */
    method Refresh(presented: TokenHash, now: int, draw: TokenHash) returns (out: Outcome)
      requires Referential(Tables())
      modifies `tokens, `sessions
      ensures (Tables(), out) == RefreshTx(old(Tables()), presented, now, draw, cfg)
    {
      var verdict := LookupToken(Tables(), presented, now);
      match verdict.verdict {
        case USABLE =>
          out := RotateAndCommit(verdict.token.value, verdict.account.value, verdict.session.value, now, draw);
        case GRACE =>
          out := RotateAndCommit(verdict.successor.value, verdict.account.value, verdict.session.value, now, draw);
        case STALE =>
          out := Refused;
        case REPLAY =>
          RevokeWhere({verdict.session.value}, REPLAY_DETECTED);
          out := ReplayDetected;
        case DEAD =>
          out := Refused;
        case UNKNOWN =>
          out := Refused;
      }
    }

    /** `UPDATE sessions SET status = 'REVOKED' WHERE … AND status = 'ACTIVE'`, and its cascade. */
    method RevokeWhere(ids: set<Id>, reason: RevokeReason)
      requires Referential(Tables())
      modifies `tokens, `sessions
      ensures Tables() == Cut(old(Tables()), ids, reason)
    {
      var hit := set s | s in ids && Live(Tables(), s);
      sessions := CutSessions(sessions, hit, reason);
      tokens := CutTokens(tokens, hit);
    }

    method Logout(account: Id, session: Id) returns (out: Outcome)
      requires Referential(Tables())
      modifies `tokens, `sessions
      ensures (Tables(), out) == LogoutTx(old(Tables()), account, session)
    {
      if session in sessions && sessions[session].account == account && sessions[session].revoked.None? {
        RevokeWhere({session}, LOGOUT);
        return RevokedCount(1);
      }
      return Refused;
    }

    method RevokeAll(account: Id) returns (out: Outcome)
      requires Referential(Tables())
      modifies `tokens, `sessions
      ensures (Tables(), out) == RevokeAllTx(old(Tables()), account)
    {
      var hit := LiveSessionsOf(Tables(), account);
      assert hit * hit == hit;
      RevokeWhere(hit, LOGOUT_ALL);
      return RevokedCount(|hit|);
    }

    /** The session and its first token are born in one transaction. */
    method OpenSession(account: Id, session: Id, draw: TokenHash, now: int) returns (out: Outcome)
      requires Referential(Tables())
      modifies `tokens, `sessions
      ensures (Tables(), out) == OpenTx(old(Tables()), account, session, draw, now, cfg)
    {
      var begin := sessions;
      if account !in accounts || !accounts[account] { return Raised(DeadAccount); }
      if session in sessions { return Raised(UniqueViolation); }
      sessions := sessions[session := Session(account, now + cfg.sessionTtl, None)];
      if draw in tokens {
        sessions := begin;
        return Raised(UniqueViolation);
      }
      tokens := tokens[draw := FreshToken(sessions[session], session, now, cfg.refreshTtl)];
      return Issued(account, session, draw);
    }
  }
}
