/**
  The erasure facade (src/persons/erasure.service.ts) and the periodic sweep
  (src/persons/erasure-scheduler.ts).  Each SQL call is a transaction of its own: whatever other
  sessions commit between two calls is a parameter, and so are the clocks.
 */
module ErasureServices {
  import opened Wrappers
  import opened Erasures
  import opened ErasureHistories
  import LoginThrottles

  class Database {
    var tables: Db

    constructor (tables: Db)
      ensures this.tables == tables
    {
      this.tables := tables;
    }
  }

  datatype RequestResult =
    | RequestRegistered(effectiveAfter: int)
    | RequestAlreadyRegistered(effectiveAfter: int)
    | RequestCompleted
    | RequestAlreadyErased
    | RequestSoleResponsible
    | RequestAccountNotActive
    | RequestThrottled
    | RequestThrew

  datatype RetractResult = RetractAnswer(verdict: RetractVerdict) | RetractThrottled | RetractThrew

  datatype StaffResult =
    | StaffCompleted
    | StaffAlreadyRequested
    | StaffAlreadyErased
    | StaffHasActiveAccount
    | StaffSoleResponsible
    | StaffUnknownPerson
    | StaffForbidden
    | StaffThrottled
    | StaffThrew

  /** What happens between the demand and its execution, and when and how the latter runs. */
  datatype Gap = Gap(meanwhile: seq<Act>, now: int, draws: Draws)

  function EffectiveAfterOf(db: Db, k: nat): Option<int> {
    if k < |db.demands| then Some(db.demands[k].effectiveAfter) else None
  }

  /** An execution inside the call; P0114 is a verdict, anything else but COMPLETED an error. */
  function Executed(db: Db, k: nat, gap: Gap): (Db, RequestResult) {
    var (after, verdict) := EraseTx(db, k, gap.now, gap.draws);
    (after, if verdict == Completed then RequestCompleted
            else if verdict == Blocked then RequestSoleResponsible else RequestThrew)
  }

  function RequestedSelf(db: Db, account: nat, mode: Mode, now: int, gap: Gap, policy: Policy): (Db, RequestResult) {
    var (asked, verdict) := AskSelfTx(db, account, mode, now, policy);
    var later := Run(asked, gap.meanwhile, policy);
    match verdict
    case Requested(k) =>
      if mode == IMMEDIATE then Executed(later, k, gap)
      else (later, if k < |later.demands| then RequestRegistered(later.demands[k].effectiveAfter) else RequestThrew)
    case AlreadyRequested(k) =>
      (later, if k < |later.demands| then RequestAlreadyRegistered(later.demands[k].effectiveAfter) else RequestThrew)
    case AlreadyErased => (asked, RequestAlreadyErased)
    case SoleResponsibleVerdict => (asked, RequestSoleResponsible)
    case AccountNotActive => (asked, RequestAccountNotActive)
    case _ => (asked, RequestThrew)
  }

  function RequestedByStaff(db: Db, actor: nat, person: Option<nat>, now: int, gap: Gap, policy: Policy): (Db, StaffResult) {
    if person.None? then (db, StaffUnknownPerson)
    else
      var (asked, verdict) := AskStaffTx(db, actor, person.value, now, policy);
      match verdict
      case Requested(k) =>
        var (after, r) := Executed(Run(asked, gap.meanwhile, policy), k, gap);
        (after, if r.RequestCompleted? then StaffCompleted
                else if r.RequestSoleResponsible? then StaffSoleResponsible else StaffThrew)
      case AlreadyRequested(_) => (asked, StaffAlreadyRequested)
      case AlreadyErased => (asked, StaffAlreadyErased)
      case HasActiveAccountVerdict => (asked, StaffHasActiveAccount)
      case SoleResponsibleVerdict => (asked, StaffSoleResponsible)
      case Forbidden => (asked, StaffForbidden)
      case _ => (asked, StaffThrew)
  }

  class ErasureService {
    const pool: Database
    const throttle: LoginThrottles.LoginThrottle
    const policy: Policy
    /** The account identifier as the throttle sees it. */
    const keyOf: nat -> string

    constructor (pool: Database, throttle: LoginThrottles.LoginThrottle, policy: Policy, keyOf: nat -> string)
      ensures this.pool == pool && this.throttle == throttle && this.policy == policy && this.keyOf == keyOf
    {
      this.pool, this.throttle, this.policy, this.keyOf := pool, throttle, policy, keyOf;
    }

    /** Whether the account's own budget admits a call. */
    ghost function Admitted(account: nat, ms: int): (LoginThrottles.Counters, bool)
      reads throttle
    {
      LoginThrottles.Answer(throttle.counters, LoginThrottles.AllowByKey(keyOf(account), ms), throttle.Lim())
    }

    method RequestSelf(account: nat, mode: Mode, ms: int, now: int, gap: Gap) returns (r: RequestResult)
      modifies pool, throttle`counters
      ensures throttle.counters == old(Admitted(account, ms)).0
      ensures r == RequestThrottled <==> !old(Admitted(account, ms)).1
      ensures r == RequestThrottled ==> pool.tables == old(pool.tables)
      ensures r != RequestThrottled ==>
                (pool.tables, r) == RequestedSelf(old(pool.tables), account, mode, now, gap, policy)
    {
      var admitted := throttle.AllowByKey(keyOf(account), ms);
      if !admitted { return RequestThrottled; }
      var (asked, verdict) := AskSelfTx(pool.tables, account, mode, now, policy);
      pool.tables := asked;
      match verdict {
        case Requested(k) =>
          pool.tables := Run(pool.tables, gap.meanwhile, policy);
          if mode == IMMEDIATE {
            r := Execute(k, gap);
          } else {
            var effectiveAfter := EffectiveAfterOf(pool.tables, k);
            r := if effectiveAfter.Some? then RequestRegistered(effectiveAfter.value) else RequestThrew;
          }
        case AlreadyRequested(k) =>
          pool.tables := Run(pool.tables, gap.meanwhile, policy);
          var effectiveAfter := EffectiveAfterOf(pool.tables, k);
          r := if effectiveAfter.Some? then RequestAlreadyRegistered(effectiveAfter.value) else RequestThrew;
        case AlreadyErased => r := RequestAlreadyErased;
        case SoleResponsibleVerdict => r := RequestSoleResponsible;
        case AccountNotActive => r := RequestAccountNotActive;
        case _ => r := RequestThrew;
      }
    }

    method Execute(k: nat, gap: Gap) returns (r: RequestResult)
      modifies pool
      ensures (pool.tables, r) == Executed(old(pool.tables), k, gap)
      ensures r != RequestThrottled
    {
      var (after, verdict) := EraseTx(pool.tables, k, gap.now, gap.draws);
      pool.tables := after;
      return if verdict == Blocked then RequestSoleResponsible
             else if verdict != Completed then RequestThrew else RequestCompleted;
    }

    method RetractSelf(account: nat, ms: int, now: int) returns (r: RetractResult)
      modifies pool, throttle`counters
      ensures throttle.counters == old(Admitted(account, ms)).0
      ensures r == RetractThrottled <==> !old(Admitted(account, ms)).1
      ensures r == RetractThrottled ==> pool.tables == old(pool.tables)
      ensures r != RetractThrottled ==>
                && pool.tables == RetractTx(old(pool.tables), account, now).0
                && r == var v := RetractTx(old(pool.tables), account, now).1;
                        if v == RetractUnknown then RetractThrew else RetractAnswer(v)
    {
      var admitted := throttle.AllowByKey(keyOf(account), ms);
      if !admitted { return RetractThrottled; }
      var (after, verdict) := RetractTx(pool.tables, account, now);
      pool.tables := after;
      return if verdict == RetractUnknown then RetractThrew else RetractAnswer(verdict);
    }

    method EraseByStaff(actor: nat, person: Option<nat>, ms: int, now: int, gap: Gap) returns (r: StaffResult)
      modifies pool, throttle`counters
      ensures throttle.counters == old(Admitted(actor, ms)).0
      ensures r == StaffThrottled <==> !old(Admitted(actor, ms)).1
      ensures r == StaffThrottled ==> pool.tables == old(pool.tables)
      ensures r != StaffThrottled ==>
                (pool.tables, r) == RequestedByStaff(old(pool.tables), actor, person, now, gap, policy)
    {
      var admitted := throttle.AllowByKey(keyOf(actor), ms);
      if !admitted { return StaffThrottled; }
      if person.None? { return StaffUnknownPerson; }
      var (asked, verdict) := AskStaffTx(pool.tables, actor, person.value, now, policy);
      pool.tables := asked;
      match verdict {
        case Requested(k) =>
          pool.tables := Run(pool.tables, gap.meanwhile, policy);
          var executed := Execute(k, gap);
          return if executed.RequestCompleted? then StaffCompleted
                 else if executed.RequestSoleResponsible? then StaffSoleResponsible else StaffThrew;
        case AlreadyRequested(_) => return StaffAlreadyRequested;
        case AlreadyErased => return StaffAlreadyErased;
        case HasActiveAccountVerdict => return StaffHasActiveAccount;
        case SoleResponsibleVerdict => return StaffSoleResponsible;
        case Forbidden => return StaffForbidden;
        case _ => return StaffThrew;
      }
    }
  }

  // ---------------------------------------------------------------------------
  // What the facade's answers mean
  // ---------------------------------------------------------------------------

  /** A delayed demand is registered for one full window, whatever commits before it is read back. */
  lemma DelayedIsForAFullWindow(db: Db, account: nat, now: int, gap: Gap, policy: Policy)
    requires Good(db, policy)
    requires AskSelfTx(db, account, DELAYED, now, policy).1.Requested?
    ensures RequestedSelf(db, account, DELAYED, now, gap, policy).1 == RequestRegistered(now + policy.retractionSeconds)
  {
    var (asked, verdict) := AskSelfTx(db, account, DELAYED, now, policy);
    RunAdvances(asked, gap.meanwhile, policy);
    assert Advances(asked.demands[verdict.k], Run(asked, gap.meanwhile, policy).demands[verdict.k]);
  }

  /** Undisturbed, an immediate demand that is accepted is carried out. */
  lemma ImmediateIsImmediate(db: Db, account: nat, now: int, gap: Gap, policy: Policy)
    requires Good(db, policy) && gap.meanwhile == [] && now <= gap.now
    requires AskSelfTx(db, account, IMMEDIATE, now, policy).1.Requested?
    ensures
      var (after, r) := RequestedSelf(db, account, IMMEDIATE, now, gap, policy);
      r == RequestCompleted && IsErased(after, db.accounts[account].person) && Destroyed(after, db.accounts[account].person)
  {
    var person := db.accounts[account].person;
    var (asked, verdict) := AskSelfTx(db, account, IMMEDIATE, now, policy);
    assert Good(asked, policy) by { AskKeepsGood(db, person, IMMEDIATE, now, policy); }
    assert Run(asked, [], policy) == asked;
    assert !SoleResponsible(asked, person) by { SoleStays(db, asked, person); }
    ExecutedUnlessSoleResponsible(asked, verdict.k, gap.now, gap.draws, policy);
    EraseKeepsGood(asked, verdict.k, gap.now, gap.draws, policy);
    var after := Destroy(asked, verdict.k, gap.now, gap.draws);
    assert after.demands[verdict.k].status == COMPLETED && after.demands[verdict.k].person == person;
  }

  lemma SoleStays(db: Db, after: Db, person: nat)
    requires after.links == db.links && after.accounts == db.accounts
    ensures SoleResponsible(after, person) <==> SoleResponsible(db, person)
  {
    forall d ensures HasActiveAccount(after, d) <==> HasActiveAccount(db, d) {}
  }

  /** An execution meets its immediate demand in flight or completed by someone else, and its person as they now are. */
  lemma ExecutionMeets(asked: Db, k: nat, person: nat, now: int, gap: Gap, policy: Policy)
    requires Good(asked, policy) && now <= gap.now && forall a <- gap.meanwhile :: NotBefore(a, now)
    requires k < |asked.demands| && asked.demands[k] == NewDemand(person, IMMEDIATE, now, policy)
    ensures
      var later := Run(asked, gap.meanwhile, policy);
      var (after, r) := Executed(later, k, gap);
      && k < |later.demands| && (later.demands[k].status == Status.REQUESTED || later.demands[k].status == COMPLETED)
      && (r == RequestThrew <==> later.demands[k].status == COMPLETED)
      && (r == RequestSoleResponsible <==>
            later.demands[k].status == Status.REQUESTED && SoleResponsible(later, person))
      && (r == RequestCompleted <==>
            later.demands[k].status == Status.REQUESTED && !SoleResponsible(later, person))
      && (r != RequestCompleted ==> after == later)
      && (r == RequestCompleted ==> after == Destroy(later, k, gap.now, gap.draws))
      && k < |after.demands| && after.demands[k].effectiveAfter == now && after.demands[k].person == person
  {
    var later := Run(asked, gap.meanwhile, policy);
    RunKeepsGood(asked, gap.meanwhile, policy);
    RunAdvances(asked, gap.meanwhile, policy);
    assert Advances(asked.demands[k], later.demands[k]);
    DueIsOnlyCompleted(asked, gap.meanwhile, k, policy);
    if later.demands[k].status == Status.REQUESTED {
      ExecutedUnlessSoleResponsible(later, k, gap.now, gap.draws, policy);
    }
  }

  /** Once executed, the demand's person is erased and nothing of them is left. */
  lemma CompletedIsDestroyed(later: Db, k: nat, gap: Gap, policy: Policy)
    requires Good(later, policy) && k < |later.demands| && Executed(later, k, gap).1 == RequestCompleted
    ensures
      var after := Executed(later, k, gap).0;
      IsErased(after, later.demands[k].person) && Destroyed(after, later.demands[k].person)
  {
    var after := Executed(later, k, gap).0;
    EraseKeepsGood(later, k, gap.now, gap.draws, policy);
    assert after.demands[k].person == later.demands[k].person && after.demands[k].status == COMPLETED;
  }

  /**
    When the world moves between the demand and its execution: the answer is an error exactly
    when someone else completed the demand first, and a refusal exactly when the person has
    become a last responsible; the demand then stays in flight, its deadline already past.
   */
  lemma RacedImmediate(db: Db, account: nat, now: int, gap: Gap, policy: Policy)
    requires Good(db, policy) && now <= gap.now
    requires forall a <- gap.meanwhile :: NotBefore(a, now)
    requires AskSelfTx(db, account, IMMEDIATE, now, policy).1.Requested?
    ensures
      var (asked, verdict) := AskSelfTx(db, account, IMMEDIATE, now, policy);
      var later := Run(asked, gap.meanwhile, policy);
      var (after, r) := RequestedSelf(db, account, IMMEDIATE, now, gap, policy);
      && verdict.k < |later.demands|
      && (r == RequestThrew <==> later.demands[verdict.k].status == COMPLETED)
      && (r == RequestSoleResponsible <==>
            later.demands[verdict.k].status == Status.REQUESTED && SoleResponsible(later, db.accounts[account].person))
      && (r == RequestSoleResponsible ==> after == later)
      && after.demands[verdict.k].effectiveAfter == now
  {
    var person := db.accounts[account].person;
    AskKeepsGood(db, person, IMMEDIATE, now, policy);
    ExecutionMeets(AskSelfTx(db, account, IMMEDIATE, now, policy).0, |db.demands|, person, now, gap, policy);
  }

  /** The demand staff placed, as the execution inside the call meets it. */
  ghost predicate StaffMeets(db: Db, actor: nat, person: nat, now: int, gap: Gap, policy: Policy, status: Status) {
    var (asked, verdict) := AskStaffTx(db, actor, person, now, policy);
    && verdict.Requested?
    && verdict.k < |Run(asked, gap.meanwhile, policy).demands|
    && Run(asked, gap.meanwhile, policy).demands[verdict.k].status == status
  }

  /** The answers a call that reached its execution can give. */
  lemma AcceptedStaffErasure(db: Db, actor: nat, person: nat, now: int, gap: Gap, policy: Policy)
    requires Good(db, policy) && now <= gap.now && forall a <- gap.meanwhile :: NotBefore(a, now)
    requires AskStaffTx(db, actor, person, now, policy).1.Requested?
    ensures
      var later := Run(AskStaffTx(db, actor, person, now, policy).0, gap.meanwhile, policy);
      var (after, r) := RequestedByStaff(db, actor, Some(person), now, gap, policy);
      && (r == StaffCompleted <==>
            StaffMeets(db, actor, person, now, gap, policy, Status.REQUESTED) && !SoleResponsible(later, person))
      && (r == StaffSoleResponsible <==>
            StaffMeets(db, actor, person, now, gap, policy, Status.REQUESTED) && SoleResponsible(later, person))
      && (r == StaffThrew <==> StaffMeets(db, actor, person, now, gap, policy, COMPLETED))
      && (r == StaffCompleted ==> IsErased(after, person) && Destroyed(after, person))
      && (r != StaffCompleted ==> after == later)
  {
    var asked := AskStaffTx(db, actor, person, now, policy).0;
    assert Good(asked, policy) by { AskKeepsGood(db, person, IMMEDIATE, now, policy); }
    ExecutionMeets(asked, |db.demands|, person, now, gap, policy);
    var later := Run(asked, gap.meanwhile, policy);
    if Executed(later, |db.demands|, gap).1 == RequestCompleted {
      RunKeepsGood(asked, gap.meanwhile, policy);
      CompletedIsDestroyed(later, |db.demands|, gap, policy);
    }
  }

  /**
    What a member of staff is told: that the erasure is done, and then the person is destroyed,
    exactly when the demand was accepted, still in flight at its execution, and its person then
    no last responsible; an error exactly when someone else completed the demand first, or the
    person does not exist.
   */
  lemma StaffErasure(db: Db, actor: nat, person: nat, now: int, gap: Gap, policy: Policy)
    requires Good(db, policy) && now <= gap.now && forall a <- gap.meanwhile :: NotBefore(a, now)
    ensures
      var (asked, verdict) := AskStaffTx(db, actor, person, now, policy);
      var later := Run(asked, gap.meanwhile, policy);
      var (after, r) := RequestedByStaff(db, actor, Some(person), now, gap, policy);
      && (r == StaffCompleted <==>
            StaffMeets(db, actor, person, now, gap, policy, Status.REQUESTED) && !SoleResponsible(later, person))
      && (r == StaffCompleted ==> IsErased(after, person) && Destroyed(after, person))
      && (r == StaffThrew <==> verdict == UnknownPerson || StaffMeets(db, actor, person, now, gap, policy, COMPLETED))
      && (r != StaffCompleted ==> after == if verdict.Requested? then later else db)
  {
    if AskStaffTx(db, actor, person, now, policy).1.Requested? {
      AcceptedStaffErasure(db, actor, person, now, gap, policy);
    }
  }

  ghost predicate InFlight(db: Db, person: nat) {
    exists k | 0 <= k < |db.demands| :: db.demands[k].person == person && db.demands[k].status == Status.REQUESTED
  }

  /** A demand of one's own that is not accepted: why, in the order the reasons are told, and nothing written. */
  lemma SelfRefused(db: Db, account: nat, mode: Mode, now: int, gap: Gap, policy: Policy)
    requires account in db.accounts && !AskSelfTx(db, account, mode, now, policy).1.Requested?
    ensures
      var (after, r) := RequestedSelf(db, account, mode, now, gap, policy);
      var person, active := db.accounts[account].person, db.accounts[account].active;
      && (r == RequestAccountNotActive <==> !active)
      && (r == RequestAlreadyErased <==> active && IsErased(db, person))
      && (r.RequestAlreadyRegistered? <==> active && !IsErased(db, person) && InFlight(db, person))
      && (r == RequestSoleResponsible <==>
            active && !IsErased(db, person) && !InFlight(db, person) && SoleResponsible(db, person))
      && (r.RequestAlreadyRegistered? ==> exists k | 0 <= k < |db.demands| ::
            db.demands[k].person == person && db.demands[k].status == Status.REQUESTED
            && r.effectiveAfter == db.demands[k].effectiveAfter)
      && after == if r.RequestAlreadyRegistered? then Run(db, gap.meanwhile, policy) else db
  {
    SelfDemandIff(db, account, mode, now, policy);
    var v := AskSelfTx(db, account, mode, now, policy).1;
    if v.AlreadyRequested? {
      RunAdvances(db, gap.meanwhile, policy);
      assert Advances(db.demands[v.k], Run(db, gap.meanwhile, policy).demands[v.k]);
    }
  }

  /** A demand of staff that is not accepted: why, in the order the reasons are told, and nothing written. */
  lemma StaffRefused(db: Db, actor: nat, person: nat, now: int, gap: Gap, policy: Policy)
    requires !AskStaffTx(db, actor, person, now, policy).1.Requested?
    ensures
      var (after, r) := RequestedByStaff(db, actor, Some(person), now, gap, policy);
      var staff := actor in db.accounts && db.accounts[actor].active && db.accounts[actor].staff && person in db.persons;
      && after == db
      && (r == StaffForbidden <==> actor !in db.accounts || !db.accounts[actor].active || !db.accounts[actor].staff)
      && (r == StaffHasActiveAccount <==> staff && HasActiveAccount(db, person))
      && (r == StaffAlreadyErased <==> staff && !HasActiveAccount(db, person) && IsErased(db, person))
      && (r == StaffAlreadyRequested <==>
            staff && !HasActiveAccount(db, person) && !IsErased(db, person) && InFlight(db, person))
      && (r == StaffSoleResponsible <==>
            staff && !HasActiveAccount(db, person) && !IsErased(db, person) && !InFlight(db, person)
            && SoleResponsible(db, person))
  {
    var pending := Pending(db.demands, person);
    if pending.Some? { assert db.demands[pending.value].status == Status.REQUESTED; }
  }

  /** Such a demand can never be retracted, whatever commits afterwards. */
  lemma BlockedImmediateIsForGood(db: Db, account: nat, now: int, gap: Gap, policy: Policy, acts: seq<Act>)
    requires Good(db, policy) && now <= gap.now
    requires forall a <- gap.meanwhile :: NotBefore(a, now)
    requires forall a <- acts :: NotBefore(a, now)
    requires AskSelfTx(db, account, IMMEDIATE, now, policy).1.Requested?
    requires RequestedSelf(db, account, IMMEDIATE, now, gap, policy).1 == RequestSoleResponsible
    ensures
      var k := AskSelfTx(db, account, IMMEDIATE, now, policy).1.k;
      var end := Run(RequestedSelf(db, account, IMMEDIATE, now, gap, policy).0, acts, policy);
      k < |end.demands| && end.demands[k].status != RETRACTED
  {
    var (asked, verdict) := AskSelfTx(db, account, IMMEDIATE, now, policy);
    var after := RequestedSelf(db, account, IMMEDIATE, now, gap, policy).0;
    assert verdict.k < |after.demands| && after.demands[verdict.k].status == Status.REQUESTED
           && after.demands[verdict.k].effectiveAfter == now by {
      RacedImmediate(db, account, now, gap, policy);
    }
    DueIsOnlyCompleted(after, acts, verdict.k, policy);
  }
}
