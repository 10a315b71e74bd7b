/** What holds of the erasure register over every run. */
module ErasureHistories {
  import opened Wrappers
  import opened Erasures

  function Run(db: Db, acts: seq<Act>, policy: Policy): Db {
    if acts == [] then db else Do(Run(db, acts[..|acts| - 1], policy), acts[|acts| - 1], policy)
  }

  const EMPTY := Db(map[], map[], {}, {}, map[], [], multiset{})

  lemma {:induction false} RunKeepsGood(db: Db, acts: seq<Act>, policy: Policy)
    requires Good(db, policy)
    ensures Good(Run(db, acts, policy), policy)
  {
    if acts != [] {
      RunKeepsGood(db, acts[..|acts| - 1], policy);
      DoKeepsGood(Run(db, acts[..|acts| - 1], policy), acts[|acts| - 1], policy);
    }
  }

  /** How one demand may move: its content never, a closed one not at all, a notice once. */
  predicate Advances(d: Demand, e: Demand) {
    && (e.person, e.mode, e.requestedAt, e.effectiveAfter) == (d.person, d.mode, d.requestedAt, d.effectiveAfter)
    && (d.status != Status.REQUESTED ==> e == d)
    && (d.notifiedAt.Some? ==> e.notifiedAt == d.notifiedAt)
  }

  ghost predicate RegisterAdvances(db: Db, after: Db) {
    && |db.demands| <= |after.demands|
    && forall k :: 0 <= k < |db.demands| ==> Advances(db.demands[k], after.demands[k])
  }

  lemma DoAdvances(db: Db, act: Act, policy: Policy)
    ensures RegisterAdvances(db, Do(db, act, policy))
  {
  }

  lemma {:induction false} RunAdvances(db: Db, acts: seq<Act>, policy: Policy)
    ensures RegisterAdvances(db, Run(db, acts, policy))
  {
    if acts != [] {
      RunAdvances(db, acts[..|acts| - 1], policy);
      DoAdvances(Run(db, acts[..|acts| - 1], policy), acts[|acts| - 1], policy);
    }
  }

  /**
    Over every run: at most one demand in flight per person, a retraction only before the
    deadline and a completion only at or after it, one notice at most per demand, and a
    completed demand is its person's last and finds nothing of them left.
   */
  lemma Lifecycle(acts: seq<Act>, policy: Policy)
    ensures
      var db := Run(EMPTY, acts, policy);
      && (forall i, j :: 0 <= i < j < |db.demands| && db.demands[i].person == db.demands[j].person
            ==> db.demands[i].status == RETRACTED)
      && (forall k :: 0 <= k < |db.demands| ==> DemandOk(db.demands[k], policy))
      && (forall k: nat :: db.notices[k] == if Notified(db, k) then 1 else 0)
      && (forall k :: 0 <= k < |db.demands| && db.demands[k].status == COMPLETED ==> Destroyed(db, db.demands[k].person))
  {
    assert Good(EMPTY, policy) by {
      assert forall k: nat :: EMPTY.notices[k] == if Notified(EMPTY, k) then 1 else 0;
    }
    RunKeepsGood(EMPTY, acts, policy);
    var db := Run(EMPTY, acts, policy);
    forall k | 0 <= k < |db.demands| && db.demands[k].status == COMPLETED ensures Destroyed(db, db.demands[k].person) {
      assert IsErased(db, db.demands[k].person);
    }
  }

  // ---------------------------------------------------------------------------
  // The wall and its courtesy form
  // ---------------------------------------------------------------------------

  lemma WallIffSole(db: Db, k: nat, now: int, draws: Draws, policy: Policy)
    requires Good(db, policy) && k < |db.demands|
    ensures LeavesOrphan(db, Destroy(db, k, now, draws)) <==> SoleResponsible(db, db.demands[k].person)
  {
    var p := db.demands[k].person;
    var after := Destroy(db, k, now, draws);
    assert forall l <- db.links :: l in after.links <==> l.0 != p;
    forall d | d != p ensures HasActiveAccount(after, d) <==> HasActiveAccount(db, d) {
      if HasActiveAccount(db, d) {
        var a :| a in db.accounts && db.accounts[a].person == d && db.accounts[a].active;
        assert a in after.accounts && after.accounts[a] == db.accounts[a];
      }
    }
    if SoleResponsible(db, p) {
      var l :| l in db.links && l.0 == p && (forall o <- db.links :: o.1 == l.1 ==> o == l) && !HasActiveAccount(db, l.1);
      assert l !in after.links && !HasResponsible(after.links, l.1) && !HasActiveAccount(after, l.1);
    }
    if LeavesOrphan(db, after) {
      var l :| l in db.links && l !in after.links && !HasResponsible(after.links, l.1) && !HasActiveAccount(after, l.1);
      forall o | o in db.links && o.1 == l.1 ensures o == l {
        assert o !in after.links;
      }
    }
  }

  /**
    A due demand is executed unless its person is, at that very moment, the last responsible of
    someone who cannot act alone: the verdict of the demand and the wall at the commit agree.
   */
  lemma ExecutedUnlessSoleResponsible(db: Db, k: nat, now: int, draws: Draws, policy: Policy)
    requires Good(db, policy) && k < |db.demands| && db.demands[k].status == Status.REQUESTED
    requires now >= db.demands[k].effectiveAfter
    ensures EraseTx(db, k, now, draws) ==
            if SoleResponsible(db, db.demands[k].person) then (db, Blocked) else (Destroy(db, k, now, draws), Completed)
  {
    WallIffSole(db, k, now, draws, policy);
  }

  /** Only the completion of a due demand of that person takes an identity away or redraws a salt. */
  lemma OnlyCompletionDestroys(db: Db, act: Act, p: nat, policy: Policy)
    requires p in db.persons
    requires
      var after := Do(db, act, policy);
      p !in after.persons || after.persons[p].salt != db.persons[p].salt
      || (db.persons[p].identity.Some? && after.persons[p].identity.None?)
    ensures act.Execute? && act.k < |db.demands| && db.demands[act.k].person == p
    ensures db.demands[act.k].status == Status.REQUESTED && act.now >= db.demands[act.k].effectiveAfter
    ensures Do(db, act, policy).demands[act.k].status == COMPLETED
  {
  }

  // ---------------------------------------------------------------------------
  // What an execution touches
  // ---------------------------------------------------------------------------

  /** The person's row has lost its identity and drawn another salt; nobody else's moved. */
  ghost predicate PersonsAfter(db: Db, after: Db, p: nat, draws: Draws) {
    && after.persons.Keys == db.persons.Keys
    && forall q <- db.persons :: after.persons[q] == if q == p then Person(None, draws.salt) else db.persons[q]
  }

  /** The person's accounts are closed and nameless; every other account is as it was. */
  ghost predicate AccountsAfter(db: Db, after: Db, p: nat) {
    && after.accounts.Keys == db.accounts.Keys
    && forall a <- db.accounts ::
         after.accounts[a] ==
         if db.accounts[a].person == p then Account(p, false, db.accounts[a].staff, None) else db.accounts[a]
  }

  /** The person's lines are ended under tokens drawn one for each; every other line is as it was. */
  ghost predicate ClaimsAfter(db: Db, after: Db, p: nat, draws: Draws) {
    && after.claims.Keys == db.claims.Keys
    && forall c <- db.claims ::
         after.claims[c] ==
         if db.claims[c].person == p then PhoneClaim(p, false, "ERASED:" + draws.token(c), "ERASED:" + draws.token(c))
         else db.claims[c]
  }

  /** Gone are the links in which the person is the responsible and their grants, and no other; links to them stay. */
  ghost predicate TiesAfter(db: Db, after: Db, p: nat) {
    && (forall l :: l in after.links <==> l in db.links && l.0 != p)
    && (forall g :: g in after.grants <==> g in db.grants && g.0 != p)
  }

  /** That demand alone is completed, and no notice moves. */
  ghost predicate RegisterAfter(db: Db, after: Db, k: nat, now: int)
    requires k < |db.demands|
  {
    && after.notices == db.notices && |after.demands| == |db.demands|
    && forall i :: 0 <= i < |db.demands| ==>
         after.demands[i] == if i == k then db.demands[k].(status := COMPLETED, completedAt := Some(now)) else db.demands[i]
  }

  /**
    An execution destroys what is its person's and touches nothing that is anybody else's: row,
    account, line, grant, link as responsible, demand.  When it is refused it touches nothing.
   */
  lemma ExecutionTouchesOnlyItsPerson(db: Db, k: nat, now: int, draws: Draws)
    ensures
      var (after, verdict) := EraseTx(db, k, now, draws);
      if verdict == Completed then
        && k < |db.demands|
        && db.demands[k].status == Status.REQUESTED && now >= db.demands[k].effectiveAfter
        && PersonsAfter(db, after, db.demands[k].person, draws)
        && AccountsAfter(db, after, db.demands[k].person)
        && ClaimsAfter(db, after, db.demands[k].person, draws)
        && TiesAfter(db, after, db.demands[k].person)
        && RegisterAfter(db, after, k, now)
      else after == db
  {
  }

  /** What of a person no other person's execution may touch. */
  ghost predicate SameOf(db: Db, after: Db, q: nat) {
    && (q in db.persons ==> q in after.persons && after.persons[q] == db.persons[q])
    && (forall a <- db.accounts :: db.accounts[a].person == q ==> a in after.accounts && after.accounts[a] == db.accounts[a])
    && (forall c <- db.claims :: db.claims[c].person == q ==> c in after.claims && after.claims[c] == db.claims[c])
    && (forall l <- db.links :: l.0 == q ==> l in after.links)
    && (forall g <- db.grants :: g.0 == q ==> g in after.grants)
  }

  /** Executing the demand of one person leaves everything of every other person as it was. */
  lemma OthersAreSafe(db: Db, act: Act, q: nat, policy: Policy)
    requires act.Execute? && (act.k < |db.demands| ==> db.demands[act.k].person != q)
    ensures SameOf(db, Do(db, act, policy), q)
  {
    ExecutionTouchesOnlyItsPerson(db, act.k, act.now, act.draws);
  }

  // ---------------------------------------------------------------------------
  // Who may do what
  // ---------------------------------------------------------------------------

  /**
    A demand is born of the person's own active account, or of active staff and then only for
    someone who cannot act alone, and without a delay; never twice, never for an erased person
    or a sole responsible.
   */
  lemma DemandsHaveTheirActor(db: Db, act: Act, policy: Policy)
    requires |Do(db, act, policy).demands| > |db.demands|
    ensures
      var after := Do(db, act, policy);
      var d := after.demands[|db.demands|];
      && after == db.(demands := db.demands + [d])
      && (act.AskSelf? || act.AskStaff?)
      && (act.AskSelf? ==>
            && act.account in db.accounts && db.accounts[act.account].active
            && d == NewDemand(db.accounts[act.account].person, act.mode, act.now, policy))
      && (act.AskStaff? ==>
            && act.actor in db.accounts && db.accounts[act.actor].active && db.accounts[act.actor].staff
            && !HasActiveAccount(db, act.person) && act.person in db.persons
            && d == NewDemand(act.person, IMMEDIATE, act.now, policy))
      && !IsErased(db, d.person) && !SoleResponsible(db, d.person)
      && (forall k :: 0 <= k < |db.demands| && db.demands[k].person == d.person ==> db.demands[k].status != Status.REQUESTED)
  {
  }

  /**
    The person's own demand is accepted exactly when the account is active and the person
    neither erased, nor already asking, nor a sole responsible; otherwise nothing changes and
    the answer is the first of these that fails.
   */
  lemma SelfDemandIff(db: Db, account: nat, mode: Mode, now: int, policy: Policy)
    requires account in db.accounts
    ensures
      var (after, v) := AskSelfTx(db, account, mode, now, policy);
      var person, active := db.accounts[account].person, db.accounts[account].active;
      var inFlight := exists k | 0 <= k < |db.demands| :: db.demands[k].person == person && db.demands[k].status == Status.REQUESTED;
      && (v.Requested? <==> active && !IsErased(db, person) && !inFlight && !SoleResponsible(db, person))
      && (v == AccountNotActive <==> !active)
      && (v == AlreadyErased <==> active && IsErased(db, person))
      && (v.AlreadyRequested? <==> active && !IsErased(db, person) && inFlight)
      && (v == SoleResponsibleVerdict <==> active && !IsErased(db, person) && !inFlight && SoleResponsible(db, person))
      && (v.AlreadyRequested? ==>
            v.k < |db.demands| && db.demands[v.k].person == person && db.demands[v.k].status == Status.REQUESTED)
      && (if v.Requested? then
            v.k == |db.demands| && |after.demands| == v.k + 1 && after == db.(demands := db.demands + [after.demands[v.k]])
          else after == db)
  {
    var pending := Pending(db.demands, db.accounts[account].person);
    if pending.Some? { assert db.demands[pending.value].status == Status.REQUESTED; }
  }

  /** Only the person retracts, only in time, and the demand alone changes. */
  lemma OnlyThePersonRetracts(db: Db, act: Act, k: nat, policy: Policy)
    requires k < |db.demands| && db.demands[k].status != RETRACTED
    requires k < |Do(db, act, policy).demands| && Do(db, act, policy).demands[k].status == RETRACTED
    ensures act.Retract? && act.now < db.demands[k].effectiveAfter
    ensures act.account in db.accounts && db.accounts[act.account].active
    ensures db.accounts[act.account].person == db.demands[k].person
    ensures Do(db, act, policy) ==
            db.(demands := db.demands[k := db.demands[k].(status := RETRACTED, retractedAt := Some(act.now))])
  {
  }

  /** A retraction that was granted holds for ever: that demand is never executed. */
  lemma RetractedForGood(db: Db, account: nat, now: int, acts: seq<Act>, policy: Policy, later: int, draws: Draws)
    requires RetractTx(db, account, now).1 == Retracted
    ensures
      var k := Pending(db.demands, db.accounts[account].person).value;
      var end := Run(RetractTx(db, account, now).0, acts, policy);
      EraseTx(end, k, later, draws) == (end, WasRetracted)
  {
    var k := Pending(db.demands, db.accounts[account].person).value;
    var after := RetractTx(db, account, now).0;
    RunAdvances(after, acts, policy);
    assert Advances(after.demands[k], Run(after, acts, policy).demands[k]);
  }

  // ---------------------------------------------------------------------------
  // Past the deadline
  // ---------------------------------------------------------------------------

  predicate NotBefore(act: Act, t: int) {
    match act
    case AskSelf(_, _, now) => now >= t
    case AskStaff(_, _, now) => now >= t
    case Retract(_, now) => now >= t
    case Execute(_, now, _) => now >= t
    case Notice(_, now) => now >= t
    case _ => true
  }

  lemma DueStep(db: Db, act: Act, k: nat, policy: Policy)
    requires k < |db.demands| && db.demands[k].status != RETRACTED && NotBefore(act, db.demands[k].effectiveAfter)
    ensures k < |Do(db, act, policy).demands| && Do(db, act, policy).demands[k].status != RETRACTED
  {
  }

  /** Past its deadline a demand can only stay in flight or be completed: nobody retracts it any more. */
  lemma {:induction false} DueIsOnlyCompleted(db: Db, acts: seq<Act>, k: nat, policy: Policy)
    requires k < |db.demands| && db.demands[k].status != RETRACTED
    requires forall a <- acts :: NotBefore(a, db.demands[k].effectiveAfter)
    ensures k < |Run(db, acts, policy).demands| && Run(db, acts, policy).demands[k].status != RETRACTED
  {
    if acts != [] {
      var before, last := acts[..|acts| - 1], acts[|acts| - 1];
      assert last in acts;
      DueIsOnlyCompleted(db, before, k, policy);
      RunAdvances(db, before, policy);
      assert Advances(db.demands[k], Run(db, before, policy).demands[k]);
      DueStep(Run(db, before, policy), last, k, policy);
    }
  }

  // ---------------------------------------------------------------------------
  // What the person is told
  // ---------------------------------------------------------------------------

  datatype State = NoDemand | Latest(status: Status, mode: Mode, effectiveAfter: int, retractable: bool)

  /** The newest demand of the person, by position and never by the clock. */
  function Newest(demands: seq<Demand>, person: nat): (k: Option<nat>)
    ensures k.Some? ==> k.value < |demands|
  {
    if demands == [] then None
    else if demands[|demands| - 1].person == person then Some(|demands| - 1)
    else Newest(demands[..|demands| - 1], person)
  }

  function StatusOf(db: Db, account: nat, now: int): State {
    if account !in db.accounts then NoDemand
    else
      match Newest(db.demands, db.accounts[account].person)
      case None => NoDemand
      case Some(k) =>
        var d := db.demands[k];
        Latest(d.status, d.mode, d.effectiveAfter,
               d.status == Status.REQUESTED && d.mode == DELAYED && now < d.effectiveAfter)
  }

  lemma {:induction false} NewestIsLast(demands: seq<Demand>, person: nat)
    ensures
      match Newest(demands, person)
      case None => forall i :: 0 <= i < |demands| ==> demands[i].person != person
      case Some(k) => && demands[k].person == person
                      && forall i :: k < i < |demands| ==> demands[i].person != person
  {
    if demands != [] { NewestIsLast(demands[..|demands| - 1], person); }
  }

  /** The status offers a retraction exactly when one would be granted at that instant. */
  lemma RetractableIsTheTruth(db: Db, account: nat, now: int, policy: Policy)
    requires Good(db, policy) && account in db.accounts && db.accounts[account].active
    requires forall k :: 0 <= k < |db.demands| ==> db.demands[k].requestedAt <= now
    ensures RetractTx(db, account, now).1 == Retracted <==>
              StatusOf(db, account, now).Latest? && StatusOf(db, account, now).retractable
  {
    var person := db.accounts[account].person;
    NewestIsLast(db.demands, person);
    var pending := Pending(db.demands, person);
    if pending.Some? {
      var newest := Newest(db.demands, person).value;
      assert DemandOk(db.demands[pending.value], policy);
      assert pending.value == newest;
    }
  }
}
