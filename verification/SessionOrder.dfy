/**
  Every interleaved run has a serial order of the requests themselves.  The order of commits
  is one, but for the sweeps that a login overtook: such a sweep is placed before the logins it
  did not see, which takes along whatever was done with the sessions they opened.
 */
module SessionOrder {
  import opened Wrappers
  import opened Sessions
  import opened SessionHistories
  import opened SessionConcurrency
  import opened SessionSerialization

  // ---------------------------------------------------------------------------
  // The tables without some sessions, and with them again
  // ---------------------------------------------------------------------------

  function KeptSessions(db: Db, ids: set<Id>): map<Id, Session> {
    map s | s in db.sessions && s in ids :: db.sessions[s]
  }

  function KeptTokens(db: Db, ids: set<Id>): map<TokenHash, Token> {
    map h | h in db.tokens && db.tokens[h].session in ids :: db.tokens[h]
  }

  function Remove(db: Db, ids: set<Id>): Db {
    Db(db.accounts,
       map s | s in db.sessions && s !in ids :: db.sessions[s],
       map h | h in db.tokens && db.tokens[h].session !in ids :: db.tokens[h])
  }

  /** `host` with the sessions `ids` of `db` added. */
  function Join(host: Db, db: Db, ids: set<Id>): Db {
    Db(host.accounts, host.sessions + KeptSessions(db, ids), host.tokens + KeptTokens(db, ids))
  }

  predicate SameKept(db: Db, d: Db, ids: set<Id>) {
    KeptSessions(db, ids) == KeptSessions(d, ids) && KeptTokens(db, ids) == KeptTokens(d, ids)
  }

  /** Whichever of the sessions exist are alive and belong to the account. */
  ghost predicate Standing(db: Db, ids: set<Id>, account: Id) {
    forall s <- db.sessions :: s in ids ==> db.sessions[s].account == account && Live(db, s)
  }

  /** Tables the sessions can be added to. */
  ghost predicate Hosts(host: Db, db: Db, ids: set<Id>, account: Id) {
    && WellFormed(host)
    && account in host.accounts && host.accounts[account]
    && (forall s <- host.sessions :: s !in ids)
    && (forall h <- db.tokens :: db.tokens[h].session in ids ==> h !in host.tokens)
  }

  lemma RemoveWellFormed(db: Db, ids: set<Id>)
    requires WellFormed(db)
    ensures WellFormed(Remove(db, ids))
  {
    var d := Remove(db, ids);
    forall s <- d.sessions ensures SessionOk(d, s) { FrameSession(db, d, s); }
  }

  /** The rows a token points at are there. */
  predicate Anchored(d: Db, h: TokenHash)
    requires h in d.tokens
  {
    && d.tokens[h].session in d.sessions
    && (d.tokens[h].replacedBy.Some? ==>
          && d.tokens[h].replacedBy.value in d.tokens
          && d.tokens[d.tokens[h].replacedBy.value].session == d.tokens[h].session)
  }

  lemma KeptAnchored(host: Db, db: Db, ids: set<Id>, h: TokenHash)
    requires Referential(db) && h in KeptTokens(db, ids)
    ensures Anchored(Join(host, db, ids), h)
  {
    assert db.tokens[h].session in KeptSessions(db, ids);
    if db.tokens[h].replacedBy.Some? { assert db.tokens[h].replacedBy.value in KeptTokens(db, ids); }
  }

  lemma HostAnchored(host: Db, db: Db, ids: set<Id>, account: Id, h: TokenHash)
    requires Hosts(host, db, ids, account) && h in host.tokens
    ensures h in Join(host, db, ids).tokens && Anchored(Join(host, db, ids), h)
  {
    assert h !in KeptTokens(db, ids);
    if host.tokens[h].replacedBy.Some? { assert host.tokens[h].replacedBy.value !in KeptTokens(db, ids); }
  }

  lemma JoinOwners(host: Db, db: Db, ids: set<Id>, account: Id, s: Id)
    requires WellFormed(host) && account in host.accounts && Standing(db, ids, account)
    requires s in Join(host, db, ids).sessions
    ensures Join(host, db, ids).sessions[s].account in host.accounts
  {
    if s in KeptSessions(db, ids) { assert db.sessions[s].account == account; }
  }

  lemma JoinReferential(host: Db, db: Db, ids: set<Id>, account: Id)
    requires WellFormed(db) && Standing(db, ids, account) && Hosts(host, db, ids, account)
    ensures Referential(Join(host, db, ids))
  {
    var d := Join(host, db, ids);
    forall h <- d.tokens ensures Anchored(d, h) {
      if h in host.tokens { HostAnchored(host, db, ids, account, h); } else { KeptAnchored(host, db, ids, h); }
    }
    forall s <- d.sessions ensures d.sessions[s].account in d.accounts { JoinOwners(host, db, ids, account, s); }
  }

  lemma JoinChains(host: Db, db: Db, ids: set<Id>, account: Id, s: Id)
    requires WellFormed(db) && Standing(db, ids, account) && Hosts(host, db, ids, account)
    requires s in Join(host, db, ids).sessions
    ensures SessionOk(Join(host, db, ids), s)
  {
    JoinReferential(host, db, ids, account);
    var d := Join(host, db, ids);
    if s in KeptSessions(db, ids) {
      FrameSession(db, d, s);
    } else {
      FrameSession(host, d, s);
    }
  }

  lemma JoinWellFormed(host: Db, db: Db, ids: set<Id>, account: Id)
    requires WellFormed(db) && Standing(db, ids, account) && Hosts(host, db, ids, account)
    ensures WellFormed(Join(host, db, ids))
  {
    JoinReferential(host, db, ids, account);
    var d := Join(host, db, ids);
    forall s <- d.sessions ensures SessionOk(d, s) { JoinChains(host, db, ids, account, s); }
  }

  lemma RemoveAgrees(db: Db, ids: set<Id>, sid: Id)
    requires sid in db.sessions && sid !in ids
    ensures sid in Remove(db, ids).sessions && SliceOf(Remove(db, ids), sid) == SliceOf(db, sid)
  {
    assert SliceOf(Remove(db, ids), sid).tokens == SliceOf(db, sid).tokens;
  }

  lemma JoinAgrees(host: Db, db: Db, ids: set<Id>, account: Id, sid: Id)
    requires WellFormed(db) && Hosts(host, db, ids, account)
    requires sid in db.sessions && sid in ids
    ensures sid in Join(host, db, ids).sessions && SliceOf(Join(host, db, ids), sid) == SliceOf(db, sid)
  {
    var d := Join(host, db, ids);
    assert sid in KeptSessions(db, ids);
    forall h <- d.tokens | d.tokens[h].session == sid ensures h in db.tokens && db.tokens[h] == d.tokens[h] {}
    forall h <- db.tokens | db.tokens[h].session == sid ensures h in d.tokens && db.tokens[h] == d.tokens[h] {
      assert h in KeptTokens(db, ids);
    }
    assert SliceOf(d, sid).tokens == SliceOf(db, sid).tokens;
  }

  // ---------------------------------------------------------------------------
  // Publishing a slice, cutting, opening: inside and outside of `ids`
  // ---------------------------------------------------------------------------

  /** A slice of one session, on tables where its tokens are that session's. */
  predicate Fits(db: Db, sid: Id, w: Slice) {
    forall h <- w.tokens :: w.tokens[h].session == sid && (h in db.tokens ==> db.tokens[h].session == sid)
  }

  lemma PublishOutside(db: Db, ids: set<Id>, sid: Id, w: Slice)
    requires sid !in ids && Fits(db, sid, w)
    ensures Remove(Publish(db, Some(sid), Some(w)), ids) == Publish(Remove(db, ids), Some(sid), Some(w))
  {
    var l, r := Remove(Publish(db, Some(sid), Some(w)), ids), Publish(Remove(db, ids), Some(sid), Some(w));
    assert l.sessions == r.sessions;
    assert l.tokens == r.tokens;
  }

  lemma PublishSpares(db: Db, ids: set<Id>, sid: Id, w: Slice)
    requires sid !in ids && Fits(db, sid, w)
    ensures SameKept(db, Publish(db, Some(sid), Some(w)), ids)
  {
    var d := Publish(db, Some(sid), Some(w));
    assert KeptSessions(db, ids) == KeptSessions(d, ids);
    assert KeptTokens(db, ids) == KeptTokens(d, ids);
  }

  lemma KeptPublished(db: Db, ids: set<Id>, sid: Id, w: Slice)
    requires sid in ids && Fits(db, sid, w)
    ensures
      var d := Publish(db, Some(sid), Some(w));
      && KeptSessions(d, ids) == KeptSessions(db, ids)[sid := w.session]
      && KeptTokens(d, ids) == KeptTokens(db, ids) + w.tokens
  {
  }

  lemma SumsAssociate<K, V>(a: map<K, V>, b: map<K, V>, c: map<K, V>)
    ensures a + (b + c) == (a + b) + c
  {
  }

  lemma PublishInside(host: Db, db: Db, ids: set<Id>, sid: Id, w: Slice)
    requires sid in ids && Fits(db, sid, w)
    ensures Join(host, Publish(db, Some(sid), Some(w)), ids) == Publish(Join(host, db, ids), Some(sid), Some(w))
  {
    KeptPublished(db, ids, sid, w);
    SumsAssociate(host.tokens, KeptTokens(db, ids), w.tokens);
    var kept := KeptSessions(db, ids);
    assert host.sessions + kept[sid := w.session] == (host.sessions + kept)[sid := w.session];
  }

  lemma PublishVanishes(db: Db, ids: set<Id>, sid: Id, w: Slice)
    requires sid in ids && Fits(db, sid, w)
    ensures Remove(Publish(db, Some(sid), Some(w)), ids) == Remove(db, ids)
  {
    var d := Remove(Publish(db, Some(sid), Some(w)), ids);
    assert d.sessions == Remove(db, ids).sessions;
    assert d.tokens == Remove(db, ids).tokens;
  }

  lemma CutOutside(db: Db, ids: set<Id>, cut: set<Id>, reason: RevokeReason)
    requires Referential(db) && Referential(Remove(db, ids)) && cut !! ids
    ensures Cut(Remove(db, ids), cut, reason) == Remove(Cut(db, cut, reason), ids)
  {
    var hit := set s | s in cut && Live(db, s);
    assert hit == set s | s in cut && Live(Remove(db, ids), s);
    SessionsCutOutside(db, ids, hit, reason);
    TokensCutOutside(db, ids, hit);
  }

  lemma SessionsCutOutside(db: Db, ids: set<Id>, hit: set<Id>, reason: RevokeReason)
    ensures CutSessions(Remove(db, ids).sessions, hit, reason) ==
            map s | s in CutSessions(db.sessions, hit, reason) && s !in ids :: CutSessions(db.sessions, hit, reason)[s]
  {
  }

  lemma TokensCutOutside(db: Db, ids: set<Id>, hit: set<Id>)
    ensures CutTokens(Remove(db, ids).tokens, hit) ==
            map h | h in CutTokens(db.tokens, hit) && CutTokens(db.tokens, hit)[h].session !in ids :: CutTokens(db.tokens, hit)[h]
  {
  }

  lemma CutSpares(db: Db, ids: set<Id>, cut: set<Id>, reason: RevokeReason)
    requires Referential(db) && cut !! ids
    ensures SameKept(db, Cut(db, cut, reason), ids)
  {
    var d := Cut(db, cut, reason);
    forall s <- db.sessions | s in ids ensures d.sessions[s] == db.sessions[s] {}
    forall h <- db.tokens | db.tokens[h].session in ids ensures d.tokens[h] == db.tokens[h] {}
    assert KeptSessions(db, ids) == KeptSessions(d, ids);
    assert KeptTokens(db, ids) == KeptTokens(d, ids);
  }

  lemma JoinUndoesRemove(db: Db, ids: set<Id>)
    ensures Join(Remove(db, ids), db, ids) == db
  {
    var d := Join(Remove(db, ids), db, ids);
    assert d.sessions == db.sessions;
    assert d.tokens == db.tokens;
  }

  // ---------------------------------------------------------------------------
  // One request, with and without the sessions
  // ---------------------------------------------------------------------------

  /** Whether a request works on one of the sessions: it refreshes one of their tokens, or opens one. */
  predicate Concerns(db: Db, r: Served, ids: set<Id>) {
    match r.request
    case Other(Refresh(h, _, _)) => h in db.tokens && db.tokens[h].session in ids
    case Other(Open(_, s, _, _)) => s in ids && r.answer.Issued?
    case _ => false
  }

  /** `r` is what its request does to `db`, which it turns into `d`. */
  ghost predicate Does(db: Db, r: Served, d: Db, cfg: Config)
    requires Referential(db)
  {
    Clean(r) && Serve(db, r.request, cfg) == (d, r.answer)
  }

  /** The request never touched the sessions: without them it does the same. */
  ghost predicate GoesWithout(db: Db, r: Served, d: Db, ids: set<Id>, cfg: Config) {
    && Referential(Remove(db, ids))
    && Serve(Remove(db, ids), r.request, cfg) == (Remove(d, ids), r.answer)
    && SameKept(db, d, ids)
  }

  /** The request touched nothing but the sessions: wherever they are added it does the same. */
  ghost predicate GoesWith(host: Db, db: Db, r: Served, d: Db, ids: set<Id>, cfg: Config) {
    && Referential(Join(host, db, ids))
    && Serve(Join(host, db, ids), r.request, cfg) == (Join(host, d, ids), r.answer)
    && Remove(d, ids) == Remove(db, ids)
  }

  lemma StandingBefore(db: Db, r: Served, d: Db, ids: set<Id>, account: Id, cfg: Config)
    requires WellFormed(db) && Does(db, r, d, cfg) && Standing(d, ids, account)
    ensures WellFormed(d) && Ages(db, d) && Standing(db, ids, account)
  {
    ServeIsApply(db, r.request, cfg);
    ApplyWellFormed(db, OpOf(db, r.request), cfg);
    ApplyAges(db, OpOf(db, r.request), cfg);
    OwnersAreForEver(db, OpOf(db, r.request), cfg);
  }

  lemma LivingWithout(db: Db, ids: set<Id>, account: Id)
    ensures LiveSessionsOf(Remove(db, ids), account) == LiveSessionsOf(db, account) - ids
  {
  }

  lemma RevokeAllWithout(db: Db, b: Id, ids: set<Id>, account: Id, cfg: Config)
    requires WellFormed(db) && Standing(RevokeAllTx(db, b).0, ids, account)
    ensures
      var r := Served(RevokeAllRequest(b), RevokeAllTx(db, b).1);
      GoesWithout(db, r, RevokeAllTx(db, b).0, ids, cfg)
  {
    var live := LiveSessionsOf(db, b);
    assert live * live == live;
    var d := Cut(db, live, LOGOUT_ALL);
    forall s <- live ensures s !in ids { assert s in d.sessions && !Live(d, s); }
    LivingWithout(db, ids, b);
    assert live - ids == live;
    RemoveWellFormed(db, ids);
    CutOutside(db, ids, live, LOGOUT_ALL);
    CutSpares(db, ids, live, LOGOUT_ALL);
  }

  lemma LogoutWithout(db: Db, b: Id, sid: Id, ids: set<Id>, account: Id, cfg: Config)
    requires WellFormed(db) && Standing(LogoutTx(db, b, sid).0, ids, account)
    ensures
      var r := Served(Other(Logout(b, sid)), LogoutTx(db, b, sid).1);
      GoesWithout(db, r, LogoutTx(db, b, sid).0, ids, cfg)
  {
    RemoveWellFormed(db, ids);
    LivingWithout(db, ids, b);
    if sid in LiveSessionsOf(db, b) {
      var d := Cut(db, {sid}, LOGOUT);
      assert sid in d.sessions && !Live(d, sid);
      CutOutside(db, ids, {sid}, LOGOUT);
      CutSpares(db, ids, {sid}, LOGOUT);
    }
  }

  lemma DeactivateWithout(db: Db, b: Id, ids: set<Id>, account: Id, cfg: Config)
    requires WellFormed(db) && Standing(DeactivateTx(db, b).0, ids, account)
    ensures
      var r := Served(Other(Deactivate(b)), DeactivateTx(db, b).1);
      GoesWithout(db, r, DeactivateTx(db, b).0, ids, cfg)
  {
    RemoveWellFormed(db, ids);
    if b in db.accounts {
      var live := LiveSessionsOf(db, b);
      var d := Cut(db, live, ADMIN);
      forall s <- live ensures s !in ids { assert s in d.sessions && !Live(d, s); }
      LivingWithout(db, ids, b);
      assert live - ids == live;
      CutOutside(db, ids, live, ADMIN);
      CutSpares(db, ids, live, ADMIN);
    }
  }

  lemma AccountWithout(db: Db, b: Id, ids: set<Id>, cfg: Config)
    requires WellFormed(db)
    ensures
      var d := Apply(db, NewAccount(b), cfg);
      GoesWithout(db, Served(Other(NewAccount(b)), d.1), d.0, ids, cfg)
  {
    RemoveWellFormed(db, ids);
  }

  /** A refresh that was served drew a value nobody had. */
  lemma CleanRefreshDraws(db: Db, h: TokenHash, now: int, draw: TokenHash, cfg: Config)
    requires WellFormed(db) && !RefreshTx(db, h, now, draw, cfg).1.Raised?
    requires LookupToken(db, h, now).verdict in {USABLE, GRACE}
    ensures draw !in db.tokens
  {
    if draw in db.tokens { RefreshUnderUsedDraw(db, h, now, draw, cfg); }
  }

  /** A refresh as the publication of its session's slice. */
  lemma RefreshFits(db: Db, h: TokenHash, now: int, draw: TokenHash, cfg: Config) returns (w: Slice)
    requires WellFormed(db) && !RefreshTx(db, h, now, draw, cfg).1.Raised? && h in db.tokens
    ensures
      var d := RefreshTx(db, h, now, draw, cfg).0;
      var sid := db.tokens[h].session;
      && sid in d.sessions && w == SliceOf(d, sid)
      && Fits(db, sid, w) && d == Publish(db, Some(sid), Some(w))
      && (LookupToken(db, h, now).verdict in {USABLE, GRACE} ==>
            draw !in db.tokens && draw in d.tokens && d.tokens[draw].session == sid)
  {
    if LookupToken(db, h, now).verdict in {USABLE, GRACE} {
      CleanRefreshDraws(db, h, now, draw, cfg);
      RefreshNeverRaises(db, h, now, draw, cfg);
    }
    var sid := db.tokens[h].session;
    RefreshIsLocal(db, db, sid, h, now, draw, cfg);
    RefreshAges(db, h, now, draw, cfg);
    w := SliceOf(RefreshTx(db, h, now, draw, cfg).0, sid);
  }

  /** The operation is the publication of one session's slice. */
  ghost predicate Publishes(db: Db, op: Op, sid: Id, w: Slice, answer: Outcome, cfg: Config) {
    Referential(db) && Fits(db, sid, w) && Apply(db, op, cfg) == (Publish(db, Some(sid), Some(w)), answer)
  }

  lemma PublishesWithout(db: Db, op: Op, sid: Id, w: Slice, answer: Outcome, ids: set<Id>, cfg: Config)
    requires sid !in ids && Publishes(db, op, sid, w, answer, cfg) && Publishes(Remove(db, ids), op, sid, w, answer, cfg)
    ensures GoesWithout(db, Served(Other(op), answer), Publish(db, Some(sid), Some(w)), ids, cfg)
  {
    PublishOutside(db, ids, sid, w);
    PublishSpares(db, ids, sid, w);
  }

  lemma PublishesWith(host: Db, db: Db, op: Op, sid: Id, w: Slice, answer: Outcome, ids: set<Id>, cfg: Config)
    requires sid in ids && Publishes(db, op, sid, w, answer, cfg) && Publishes(Join(host, db, ids), op, sid, w, answer, cfg)
    ensures GoesWith(host, db, Served(Other(op), answer), Publish(db, Some(sid), Some(w)), ids, cfg)
  {
    PublishInside(host, db, ids, sid, w);
    PublishVanishes(db, ids, sid, w);
  }

  function OpenedSlice(b: Id, sid: Id, h: TokenHash, now: int, cfg: Config): Slice {
    var s := Session(b, now + cfg.sessionTtl, None);
    Slice(s, map[h := FreshToken(s, sid, now, cfg.refreshTtl)])
  }

  lemma OpenPublishes(db: Db, b: Id, sid: Id, h: TokenHash, now: int, cfg: Config)
    requires Referential(db) && b in db.accounts && db.accounts[b] && sid !in db.sessions && h !in db.tokens
    ensures Publishes(db, Open(b, sid, h, now), sid, OpenedSlice(b, sid, h, now, cfg), Issued(b, sid, h), cfg)
  {
    var w := OpenedSlice(b, sid, h, now, cfg);
    assert db.tokens + w.tokens == db.tokens[h := w.tokens[h]];
  }

  lemma OpenWithout(db: Db, b: Id, sid: Id, h: TokenHash, now: int, ids: set<Id>, cfg: Config)
    requires WellFormed(db) && OpenTx(db, b, sid, h, now, cfg).1 != Raised(UniqueViolation)
    requires sid in ids ==> !OpenTx(db, b, sid, h, now, cfg).1.Issued?
    ensures
      var d := OpenTx(db, b, sid, h, now, cfg);
      GoesWithout(db, Served(Other(Open(b, sid, h, now)), d.1), d.0, ids, cfg)
  {
    RemoveWellFormed(db, ids);
    if b in db.accounts && db.accounts[b] {
      OpenPublishes(db, b, sid, h, now, cfg);
      OpenPublishes(Remove(db, ids), b, sid, h, now, cfg);
      PublishesWithout(db, Open(b, sid, h, now), sid, OpenedSlice(b, sid, h, now, cfg), Issued(b, sid, h), ids, cfg);
    }
  }

  lemma StillNew(host: Db, db: Db, ids: set<Id>, account: Id, sid: Id, h: TokenHash)
    requires Hosts(host, db, ids, account) && sid in ids
    requires sid !in db.sessions && h !in db.tokens && h !in host.tokens
    ensures sid !in Join(host, db, ids).sessions && h !in Join(host, db, ids).tokens
  {
  }

  lemma OpenWithin(host: Db, db: Db, b: Id, sid: Id, h: TokenHash, now: int, ids: set<Id>, account: Id, cfg: Config)
    requires WellFormed(db) && b in db.accounts && db.accounts[b] && sid !in db.sessions && h !in db.tokens
    requires sid in ids && Standing(db, ids, account) && b == account
    requires Hosts(host, db, ids, account) && h !in host.tokens
    ensures
      var w := OpenedSlice(b, sid, h, now, cfg);
      && Publishes(db, Open(b, sid, h, now), sid, w, Issued(b, sid, h), cfg)
      && GoesWith(host, db, Served(Other(Open(b, sid, h, now)), Issued(b, sid, h)), Publish(db, Some(sid), Some(w)), ids, cfg)
  {
    JoinReferential(host, db, ids, account);
    OpenPublishes(db, b, sid, h, now, cfg);
    StillNew(host, db, ids, account, sid, h);
    OpenPublishes(Join(host, db, ids), b, sid, h, now, cfg);
    PublishesWith(host, db, Open(b, sid, h, now), sid, OpenedSlice(b, sid, h, now, cfg), Issued(b, sid, h), ids, cfg);
  }

  lemma RefreshPublishes(db: Db, e: Db, h: TokenHash, now: int, draw: TokenHash, w: Slice, cfg: Config)
    requires WellFormed(db) && WellFormed(e) && h in db.tokens
    requires
      var sid := db.tokens[h].session;
      && sid in e.sessions && SliceOf(e, sid) == SliceOf(db, sid)
      && sid in RefreshTx(db, h, now, draw, cfg).0.sessions && w == SliceOf(RefreshTx(db, h, now, draw, cfg).0, sid)
      && Fits(e, sid, w)
    requires LookupToken(db, h, now).verdict in {USABLE, GRACE} ==> draw !in db.tokens && draw !in e.tokens
    ensures Publishes(e, Refresh(h, now, draw), db.tokens[h].session, w, RefreshTx(db, h, now, draw, cfg).1, cfg)
  {
    RefreshIsLocal(db, e, db.tokens[h].session, h, now, draw, cfg);
  }

  lemma RefreshWithout(db: Db, h: TokenHash, now: int, draw: TokenHash, ids: set<Id>, cfg: Config)
    requires WellFormed(db) && !RefreshTx(db, h, now, draw, cfg).1.Raised?
    requires h in db.tokens ==> db.tokens[h].session !in ids
    ensures
      var d := RefreshTx(db, h, now, draw, cfg);
      GoesWithout(db, Served(Other(Refresh(h, now, draw)), d.1), d.0, ids, cfg)
  {
    RemoveWellFormed(db, ids);
    if h in db.tokens {
      var sid := db.tokens[h].session;
      var w := RefreshFits(db, h, now, draw, cfg);
      RemoveAgrees(db, ids, sid);
      RefreshPublishes(db, db, h, now, draw, w, cfg);
      RefreshPublishes(db, Remove(db, ids), h, now, draw, w, cfg);
      PublishesWithout(db, Refresh(h, now, draw), sid, w, RefreshTx(db, h, now, draw, cfg).1, ids, cfg);
    }
  }

  /** The slice fits tables that agree with `db` on its session and hold none of its new tokens. */
  lemma FitsJoin(host: Db, db: Db, d: Db, ids: set<Id>, account: Id, sid: Id)
    requires WellFormed(db) && Hosts(host, db, ids, account) && Hosts(host, d, ids, account)
    requires sid in ids && sid in d.sessions && Fits(db, sid, SliceOf(d, sid))
    ensures Fits(Join(host, db, ids), sid, SliceOf(d, sid))
    ensures forall k <- d.tokens :: d.tokens[k].session == sid && k !in db.tokens ==> k !in Join(host, db, ids).tokens
  {
  }

  lemma RefreshWithin(host: Db, db: Db, h: TokenHash, now: int, draw: TokenHash, ids: set<Id>, account: Id, cfg: Config)
    requires WellFormed(db) && !RefreshTx(db, h, now, draw, cfg).1.Raised?
    requires h in db.tokens && db.tokens[h].session in ids
    requires Standing(db, ids, account)
    requires Hosts(host, RefreshTx(db, h, now, draw, cfg).0, ids, account) && Hosts(host, db, ids, account)
    ensures
      var d := RefreshTx(db, h, now, draw, cfg);
      GoesWith(host, db, Served(Other(Refresh(h, now, draw)), d.1), d.0, ids, cfg)
  {
    JoinWellFormed(host, db, ids, account);
    var sid := db.tokens[h].session;
    var w := RefreshFits(db, h, now, draw, cfg);
    JoinAgrees(host, db, ids, account, sid);
    FitsJoin(host, db, RefreshTx(db, h, now, draw, cfg).0, ids, account, sid);
    RefreshPublishes(db, db, h, now, draw, w, cfg);
    RefreshPublishes(db, Join(host, db, ids), h, now, draw, w, cfg);
    PublishesWith(host, db, Refresh(h, now, draw), sid, w, RefreshTx(db, h, now, draw, cfg).1, ids, cfg);
  }

  /** A request that does not concern the sessions, while they stand. */
  lemma Elsewhere(db: Db, r: Served, d: Db, ids: set<Id>, account: Id, cfg: Config)
    requires WellFormed(db) && Does(db, r, d, cfg) && Standing(d, ids, account) && !Concerns(db, r, ids)
    ensures GoesWithout(db, r, d, ids, cfg)
  {
    match r.request
    case RevokeAllRequest(b) => RevokeAllWithout(db, b, ids, account, cfg);
    case Other(op) =>
      match op
      case Refresh(h, now, draw) => RefreshWithout(db, h, now, draw, ids, cfg);
      case Logout(b, sid) => LogoutWithout(db, b, sid, ids, account, cfg);
      case Open(b, sid, h, now) => OpenWithout(db, b, sid, h, now, ids, cfg);
      case Deactivate(b) => DeactivateWithout(db, b, ids, account, cfg);
      case NewAccount(b) => AccountWithout(db, b, ids, cfg);
  }

  lemma HostsBefore(host: Db, db: Db, d: Db, ids: set<Id>, account: Id)
    requires Ages(db, d) && Hosts(host, d, ids, account)
    ensures Hosts(host, db, ids, account)
  {
  }

  /** A request that concerns the sessions, on tables they can be added to. */
  lemma Inside(host: Db, db: Db, r: Served, d: Db, ids: set<Id>, account: Id, cfg: Config)
    requires WellFormed(db) && Does(db, r, d, cfg) && Standing(d, ids, account) && Concerns(db, r, ids)
    requires Standing(db, ids, account) && Hosts(host, d, ids, account) && Hosts(host, db, ids, account)
    ensures GoesWith(host, db, r, d, ids, cfg)
  {
    match r.request.op
    case Refresh(h, now, draw) => RefreshWithin(host, db, h, now, draw, ids, account, cfg);
    case Open(b, sid, h, now) =>
      assert h in d.tokens && d.tokens[h].session == sid && sid in d.sessions && d.sessions[sid].account == b;
      OpenWithin(host, db, b, sid, h, now, ids, account, cfg);
  }

  /** Seen without the sessions, such a request does nothing. */
  lemma Vanishes(db: Db, r: Served, d: Db, ids: set<Id>, account: Id, cfg: Config)
    requires WellFormed(db) && Does(db, r, d, cfg) && Standing(d, ids, account) && Concerns(db, r, ids)
    requires Standing(db, ids, account)
    ensures Remove(d, ids) == Remove(db, ids)
  {
    Inside(Db(map[account := true], map[], map[]), db, r, d, ids, account, cfg);
  }

  // ---------------------------------------------------------------------------
  // A history taken apart
  // ---------------------------------------------------------------------------

  ghost predicate AllClean(h: seq<Served>) { forall i :: 0 <= i < |h| ==> Clean(h[i]) }

  /** The requests of a history that do not concern the sessions, and those that do. */
  function Apart(h: seq<Served>, ids: set<Id>, cfg: Config): (r: (seq<Served>, seq<Served>))
    ensures multiset(r.0) + multiset(r.1) == multiset(h)
  {
    if h == [] then ([], []) else
      var front, last := h[..|h| - 1], h[|h| - 1];
      var (without, within) := Apart(front, ids, cfg);
      assert h == front + [last];
      if Concerns(ServedAfter(EMPTY, front, cfg), last, ids) then (without, within + [last]) else (without + [last], within)
  }

  lemma {:induction false} ApartClean(h: seq<Served>, ids: set<Id>, cfg: Config)
    requires AllClean(h)
    ensures AllClean(Apart(h, ids, cfg).0) && AllClean(Apart(h, ids, cfg).1)
  {
    if h != [] { ApartClean(h[..|h| - 1], ids, cfg); }
  }

  /** The state before the last request, and what that request does to it. */
  lemma LastDoes(h: seq<Served>, ids: set<Id>, account: Id, cfg: Config) returns (db: Db)
    requires h != [] && AllClean(h) && Truthful(EMPTY, h, cfg) && Standing(ServedAfter(EMPTY, h, cfg), ids, account)
    ensures db == ServedAfter(EMPTY, h[..|h| - 1], cfg) && WellFormed(db)
    ensures Does(db, h[|h| - 1], ServedAfter(EMPTY, h, cfg), cfg)
    ensures WellFormed(ServedAfter(EMPTY, h, cfg)) && Ages(db, ServedAfter(EMPTY, h, cfg)) && Standing(db, ids, account)
    ensures AllClean(h[..|h| - 1]) && Truthful(EMPTY, h[..|h| - 1], cfg)
  {
    db := ServedAfter(EMPTY, h[..|h| - 1], cfg);
    ServedWellFormed(EMPTY, h[..|h| - 1], cfg);
    StandingBefore(db, h[|h| - 1], ServedAfter(EMPTY, h, cfg), ids, account, cfg);
  }

  /** Without the requests that concern the sessions, the others are answered alike. */
  lemma {:induction false} RestAlone(h: seq<Served>, ids: set<Id>, account: Id, cfg: Config)
    requires AllClean(h) && Truthful(EMPTY, h, cfg) && Standing(ServedAfter(EMPTY, h, cfg), ids, account)
    ensures Truthful(EMPTY, Apart(h, ids, cfg).0, cfg)
    ensures ServedAfter(EMPTY, Apart(h, ids, cfg).0, cfg) == Remove(ServedAfter(EMPTY, h, cfg), ids)
  {
    if h == [] {
      assert Remove(EMPTY, ids) == EMPTY;
    } else {
      var front, last, d := h[..|h| - 1], h[|h| - 1], ServedAfter(EMPTY, h, cfg);
      var db := LastDoes(h, ids, account, cfg);
      RestAlone(front, ids, account, cfg);
      if Concerns(db, last, ids) {
        Vanishes(db, last, d, ids, account, cfg);
      } else {
        Elsewhere(db, last, d, ids, account, cfg);
        ServedSnoc(EMPTY, Apart(front, ids, cfg).0, last, cfg);
      }
    }
  }

  /** Replayed on tables the sessions can be added to, the requests that concern them are answered alike. */
  lemma {:induction false} ConcernedAfter(host: Db, h: seq<Served>, ids: set<Id>, account: Id, cfg: Config)
    requires AllClean(h) && Truthful(EMPTY, h, cfg) && Standing(ServedAfter(EMPTY, h, cfg), ids, account)
    requires Hosts(host, ServedAfter(EMPTY, h, cfg), ids, account)
    ensures Truthful(host, Apart(h, ids, cfg).1, cfg)
    ensures ServedAfter(host, Apart(h, ids, cfg).1, cfg) == Join(host, ServedAfter(EMPTY, h, cfg), ids)
  {
    if h == [] {
      assert Join(host, EMPTY, ids) == host;
    } else {
      var front, last, d := h[..|h| - 1], h[|h| - 1], ServedAfter(EMPTY, h, cfg);
      var db := LastDoes(h, ids, account, cfg);
      HostsBefore(host, db, d, ids, account);
      ConcernedAfter(host, front, ids, account, cfg);
      if Concerns(db, last, ids) {
        Inside(host, db, last, d, ids, account, cfg);
        ServedSnoc(host, Apart(front, ids, cfg).1, last, cfg);
      } else {
        Elsewhere(db, last, d, ids, account, cfg);
      }
    }
  }

  // ---------------------------------------------------------------------------
  // The serial order
  // ---------------------------------------------------------------------------

  /** A history of the requests logged, each answered as it was, that leaves the tables `db`. */
  ghost predicate SerialOrder(h: seq<Served>, log: seq<Op>, answers: seq<Outcome>, db: Db, cfg: Config) {
    && |log| == |answers|
    && multiset(h) == multiset(Requested(log, answers))
    && Truthful(EMPTY, h, cfg) && ServedAfter(EMPTY, h, cfg) == db
  }

  /** Without the sessions it did not see, the sweep is a `revokeAll`; they can be added to what it leaves. */
  lemma SweepWithout(db: Db, account: Id, seen: set<Id>)
    requires WellFormed(db) && !(LiveSessionsOf(db, account) <= seen)
    ensures
      var unseen := LiveSessionsOf(db, account) - seen;
      var (d, answer) := RevokeSeenTx(db, account, seen);
      && Referential(Remove(db, unseen))
      && RevokeAllTx(Remove(db, unseen), account) == (Remove(d, unseen), answer)
      && Hosts(Remove(d, unseen), db, unseen, account)
      && Join(Remove(d, unseen), db, unseen) == d
  {
    var live := LiveSessionsOf(db, account);
    var unseen, hit := live - seen, seen * live;
    var d := Cut(db, hit, LOGOUT_ALL);
    RemoveWellFormed(db, unseen);
    CutWellFormed(db, hit, LOGOUT_ALL);
    RemoveWellFormed(d, unseen);
    LivingWithout(db, unseen, account);
    assert live - unseen == hit && hit * hit == hit;
    CutOutside(db, unseen, hit, LOGOUT_ALL);
    CutSpares(db, unseen, hit, LOGOUT_ALL);
    JoinUndoesRemove(d, unseen);
    var s :| s in live && s !in seen;
    assert db.accounts[db.sessions[s].account];
  }

  /** The state and the truth of a history of three parts. */
  lemma ThreeParts(a: seq<Served>, r: Served, b: seq<Served>, cfg: Config)
    requires Truthful(EMPTY, a, cfg)
    requires r.answer == Serve(ServedAfter(EMPTY, a, cfg), r.request, cfg).1
    requires Truthful(Serve(ServedAfter(EMPTY, a, cfg), r.request, cfg).0, b, cfg)
    ensures Truthful(EMPTY, a + [r] + b, cfg)
    ensures
      ServedAfter(EMPTY, a + [r] + b, cfg) == ServedAfter(Serve(ServedAfter(EMPTY, a, cfg), r.request, cfg).0, b, cfg)
  {
    ServedSnoc(EMPTY, a, r, cfg);
    ServedConcat(EMPTY, a + [r], b, cfg);
  }

  lemma CleanParts(a: seq<Served>, r: Served, b: seq<Served>)
    requires AllClean(a) && Clean(r) && AllClean(b)
    ensures AllClean(a + [r] + b)
  {
  }

  /** A sweep that missed some sessions, placed before what was done with them. */
  lemma SweepAmid(h: seq<Served>, account: Id, seen: set<Id>, sweep: Served, cfg: Config) returns (k: seq<Served>)
    requires AllClean(h) && Truthful(EMPTY, h, cfg) && !(LiveSessionsOf(ServedAfter(EMPTY, h, cfg), account) <= seen)
    requires sweep == Served(RevokeAllRequest(account), RevokeSeenTx(ServedAfter(EMPTY, h, cfg), account, seen).1)
    ensures AllClean(k) && Truthful(EMPTY, k, cfg)
    ensures ServedAfter(EMPTY, k, cfg) == RevokeSeenTx(ServedAfter(EMPTY, h, cfg), account, seen).0
    ensures multiset(k) == multiset(h) + multiset{sweep}
  {
    var db := ServedAfter(EMPTY, h, cfg);
    ServedWellFormed(EMPTY, h, cfg);
    var unseen := LiveSessionsOf(db, account) - seen;
    var (without, within) := Apart(h, unseen, cfg);
    var d := RevokeSeenTx(db, account, seen).0;
    SweepWithout(db, account, seen);
    ApartClean(h, unseen, cfg);
    RestAlone(h, unseen, account, cfg);
    ConcernedAfter(Remove(d, unseen), h, unseen, account, cfg);
    ThreeParts(without, sweep, within, cfg);
    CleanParts(without, sweep, within);
    k := without + [sweep] + within;
  }

  /** A sweep, placed before what it did not see. */
  lemma SweepInOrder(h: seq<Served>, account: Id, seen: set<Id>, cfg: Config) returns (k: seq<Served>)
    requires AllClean(h) && Truthful(EMPTY, h, cfg)
    ensures
      var (d, answer) := RevokeSeenTx(ServedAfter(EMPTY, h, cfg), account, seen);
      && AllClean(k) && Truthful(EMPTY, k, cfg) && ServedAfter(EMPTY, k, cfg) == d
      && multiset(k) == multiset(h) + multiset{Served(RevokeAllRequest(account), answer)}
  {
    var db := ServedAfter(EMPTY, h, cfg);
    var sweep := Served(RevokeAllRequest(account), RevokeSeenTx(db, account, seen).1);
    if LiveSessionsOf(db, account) <= seen {
      SweepIsRevokeAllIff(db, account, seen);
      ServedSnoc(EMPTY, h, sweep, cfg);
      k := h + [sweep];
    } else {
      k := SweepAmid(h, account, seen, sweep, cfg);
    }
  }

  /** No login drew a session or a token that already existed. */
  ghost predicate NoLoginCollides(log: seq<Op>, answers: seq<Outcome>) {
    |log| == |answers| && forall i :: 0 <= i < |log| ==> log[i].Open? ==> answers[i] != Raised(UniqueViolation)
  }

  /** One more logged operation, one more request in the history. */
  lemma Extended(h: seq<Served>, op: Op, cfg: Config) returns (k: seq<Served>)
    requires AllClean(h) && Truthful(EMPTY, h, cfg)
    requires
      var answer := Apply(ServedAfter(EMPTY, h, cfg), op, cfg).1;
      (op.Refresh? ==> !answer.Raised?) && (op.Open? ==> answer != Raised(UniqueViolation))
    ensures
      var r := Apply(ServedAfter(EMPTY, h, cfg), op, cfg);
      && AllClean(k) && Truthful(EMPTY, k, cfg) && ServedAfter(EMPTY, k, cfg) == r.0
      && multiset(k) == multiset(h) + multiset{Served(RequestOf(op), r.1)}
  {
    if op.RevokeSeen? {
      k := SweepInOrder(h, op.account, op.seen, cfg);
    } else {
      var r := Served(Other(op), Apply(ServedAfter(EMPTY, h, cfg), op, cfg).1);
      ServedSnoc(EMPTY, h, r, cfg);
      k := h + [r];
    }
  }

  lemma {:induction false} Ordered(log: seq<Op>, cfg: Config) returns (h: seq<Served>)
    requires RefreshesClean(log, Answers(EMPTY, log, cfg)) && NoLoginCollides(log, Answers(EMPTY, log, cfg))
    ensures AllClean(h) && SerialOrder(h, log, Answers(EMPTY, log, cfg), After(EMPTY, log, cfg), cfg)
  {
    if log == [] {
      h := [];
      assert Requested([], []) == [];
    } else {
      var front, op := log[..|log| - 1], log[|log| - 1];
      assert log == front + [op];
      AfterSnoc(EMPTY, front, op, cfg);
      var answers := Answers(EMPTY, front, cfg);
      var answer := Apply(After(EMPTY, front, cfg), op, cfg).1;
      assert Answers(EMPTY, log, cfg) == answers + [answer];
      assert |answers| == |front|;
      var k := Ordered(front, cfg);
      h := Extended(k, op, cfg);
      assert Requested(log, answers + [answer]) == Requested(front, answers) + [Served(RequestOf(op), answer)];
    }
  }

  /**
    Whatever the interleaving of refreshes, logouts, `revokeAll`s, logins and deactivations, its
    tables and its answers are those of the same requests served one at a time in some order,
    every `revokeAll` then revoking all that lives, as long as no login's draw was taken.
   */
  lemma SomeSerialOrder(acts: seq<Action>, e: State, cfg: Config)
    requires Reaches(BOOT, acts, e, cfg) && NoLoginCollides(e.log, e.answers)
    ensures exists h :: SerialOrder(h, e.log, e.answers, e.db, cfg)
  {
    RunKeepsInv(BOOT, acts, e, cfg);
    var h := Ordered(e.log, cfg);
  }
}
