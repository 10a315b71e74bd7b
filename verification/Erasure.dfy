/**
  The erasure register: the actor functions, execution and notice of
  db/schema/026_person_erasures.sql, 028_erase_person.sql, 029_erasure_notice.sql and
  033_erase_person_cuts_grants.sql, with the orphan wall of 017_person_responsibilities.sql,
  as committed transactions.  Demands are numbered by their position in the register.
 */
module Erasures {
  import opened Wrappers

  datatype RawPolicy = RawPolicy(retractionSeconds: int, leadSeconds: int)

  /** The notice fits within the window, and neither is empty. */
  type Policy = p: RawPolicy | 0 < p.leadSeconds <= p.retractionSeconds witness RawPolicy(1, 1)

  datatype Mode = IMMEDIATE | DELAYED

  datatype Status = REQUESTED | COMPLETED | RETRACTED

  datatype Demand = Demand(
    person: nat,
    mode: Mode,
    status: Status,
    requestedAt: int,
    effectiveAfter: int,
    notifiedAt: Option<int>,
    completedAt: Option<int>,
    retractedAt: Option<int>)

  datatype Person = Person(identity: Option<string>, salt: string)

  datatype Account = Account(person: nat, active: bool, staff: bool, displayName: Option<string>)

  datatype PhoneClaim = PhoneClaim(person: nat, alive: bool, phoneHmac: string, phoneEncrypted: string)

  /** `links` are the ACTIVE (responsible, dependent) pairs, `grants` the ACTIVE (person, program) pairs. */
  datatype Db = Db(
    persons: map<nat, Person>,
    accounts: map<nat, Account>,
    links: set<(nat, nat)>,
    grants: set<(nat, nat)>,
    claims: map<nat, PhoneClaim>,
    demands: seq<Demand>,
    notices: multiset<nat>)

  /** The values drawn by an execution. */
  datatype Draws = Draws(salt: string, token: nat -> string)

  predicate HasActiveAccount(db: Db, person: nat) {
    exists a <- db.accounts :: db.accounts[a].person == person && db.accounts[a].active
  }

  predicate HasResponsible(links: set<(nat, nat)>, person: nat) {
    exists l <- links :: l.1 == person
  }

  predicate IsErased(db: Db, person: nat) {
    exists k | 0 <= k < |db.demands| :: db.demands[k].person == person && db.demands[k].status == COMPLETED
  }

  /** The courtesy refusal at the time of the demand. */
  predicate SoleResponsible(db: Db, person: nat) {
    exists l <- db.links ::
      && l.0 == person
      && (forall o <- db.links :: o.1 == l.1 ==> o == l)
      && !HasActiveAccount(db, l.1)
  }

  /** The demand of a person still in flight, if any. */
  function Pending(demands: seq<Demand>, person: nat): (k: Option<nat>)
    ensures k.Some? ==> k.value < |demands| && demands[k.value].person == person && demands[k.value].status == REQUESTED
    ensures k.None? ==> forall i :: 0 <= i < |demands| && demands[i].person == person ==> demands[i].status != REQUESTED
  {
    if demands == [] then None
    else
      var n := |demands| - 1;
      if demands[n].person == person && demands[n].status == REQUESTED then Some(n) else Pending(demands[..n], person)
  }

  function NewDemand(person: nat, mode: Mode, now: int, policy: Policy): Demand {
    var due := if mode == IMMEDIATE then now else now + policy.retractionSeconds;
    Demand(person, mode, Status.REQUESTED, now, due, None, None, None)
  }

  datatype AskVerdict =
    | Requested(k: nat)
    | AlreadyRequested(k: nat)
    | AlreadyErased
    | SoleResponsibleVerdict
    | AccountNotActive
    | UnknownAccount
    | Forbidden
    | HasActiveAccountVerdict
    | UnknownPerson

  /** What both request functions do once the actor is settled. */
  function Ask(db: Db, person: nat, mode: Mode, now: int, policy: Policy): (Db, AskVerdict) {
    if IsErased(db, person) then (db, AlreadyErased)
    else if Pending(db.demands, person).Some? then (db, AlreadyRequested(Pending(db.demands, person).value))
    else if SoleResponsible(db, person) then (db, SoleResponsibleVerdict)
    else (db.(demands := db.demands + [NewDemand(person, mode, now, policy)]), Requested(|db.demands|))
  }

  function AskSelfTx(db: Db, account: nat, mode: Mode, now: int, policy: Policy): (Db, AskVerdict) {
    if account !in db.accounts then (db, UnknownAccount)
    else if !db.accounts[account].active then (db, AccountNotActive)
    else Ask(db, db.accounts[account].person, mode, now, policy)
  }

  /** The staff path is IMMEDIATE, and closed on whoever can act alone. */
  function AskStaffTx(db: Db, actor: nat, person: nat, now: int, policy: Policy): (Db, AskVerdict) {
    if actor !in db.accounts || !db.accounts[actor].active || !db.accounts[actor].staff then (db, Forbidden)
    else if person !in db.persons then (db, UnknownPerson)
    else if HasActiveAccount(db, person) then (db, HasActiveAccountVerdict)
    else Ask(db, person, IMMEDIATE, now, policy)
  }

  datatype RetractVerdict = Retracted | WindowClosed | NothingToRetract | RetractNotActive | RetractUnknown

  function RetractTx(db: Db, account: nat, now: int): (Db, RetractVerdict) {
    if account !in db.accounts then (db, RetractUnknown)
    else if !db.accounts[account].active then (db, RetractNotActive)
    else
      match Pending(db.demands, db.accounts[account].person)
      case None => (db, NothingToRetract)
      case Some(k) =>
        if now >= db.demands[k].effectiveAfter then (db, WindowClosed)
        else
          (db.(demands := db.demands[k := db.demands[k].(status := RETRACTED, retractedAt := Some(now))]), Retracted)
  }

  datatype NoticeVerdict = Noticed | AlreadyNoticed | NotApplicable | NotYet | UnknownDemand

  function NoticeTx(db: Db, k: nat, now: int, policy: Policy): (Db, NoticeVerdict) {
    if k >= |db.demands| then (db, UnknownDemand)
    else
      var d := db.demands[k];
      if d.status != Status.REQUESTED || d.mode != DELAYED then (db, NotApplicable)
      else if d.notifiedAt.Some? then (db, AlreadyNoticed)
      else if now < d.effectiveAfter - policy.leadSeconds then (db, NotYet)
      else
        (db.(demands := db.demands[k := d.(notifiedAt := Some(now))], notices := db.notices + multiset{k}), Noticed)
  }

  datatype EraseVerdict = Completed | AlreadyCompleted | WasRetracted | NotDue | NoSuchDemand | Blocked

  /** Everything an execution destroys, closes and writes, before the commit. */
  function Destroy(db: Db, k: nat, now: int, draws: Draws): Db
    requires k < |db.demands|
  {
    var p := db.demands[k].person;
    Db(
      if p in db.persons then db.persons[p := Person(None, draws.salt)] else db.persons,
      map a <- db.accounts ::
        if db.accounts[a].person == p then db.accounts[a].(active := false, displayName := None) else db.accounts[a],
      set l | l in db.links && l.0 != p,
      set g | g in db.grants && g.0 != p,
      map c <- db.claims ::
        if db.claims[c].person == p then Neutral(p, draws.token(c)) else db.claims[c],
      db.demands[k := db.demands[k].(status := COMPLETED, completedAt := Some(now))],
      db.notices)
  }

  function Neutral(person: nat, token: string): PhoneClaim {
    PhoneClaim(person, false, "ERASED:" + token, "ERASED:" + token)
  }

  /** The deferred P0114 wall: a closed link leaves its dependent with no responsible and no account. */
  predicate LeavesOrphan(before: Db, after: Db) {
    exists l <- before.links ::
      l !in after.links && !HasResponsible(after.links, l.1) && !HasActiveAccount(after, l.1)
  }

  function EraseTx(db: Db, k: nat, now: int, draws: Draws): (Db, EraseVerdict) {
    if k >= |db.demands| then (db, NoSuchDemand)
    else if db.demands[k].status == COMPLETED then (db, AlreadyCompleted)
    else if db.demands[k].status == RETRACTED then (db, WasRetracted)
    else if now < db.demands[k].effectiveAfter then (db, NotDue)
    else
      var after := Destroy(db, k, now, draws);
      if LeavesOrphan(db, after) then (db, Blocked) else (after, Completed)
  }

  // ---------------------------------------------------------------------------
  // Everything else that may commit meanwhile
  // ---------------------------------------------------------------------------

  datatype Act =
    | AskSelf(account: nat, mode: Mode, now: int)
    | AskStaff(actor: nat, person: nat, now: int)
    | Retract(account: nat, now: int)
    | Execute(k: nat, now: int, draws: Draws)
    | Notice(k: nat, now: int)
    | OpenAccount(account: nat, person: nat, staff: bool, salt: string)
    | OpenDependent(person: nat, responsible: nat, salt: string)
    | Deactivate(account: nat)
    | Rename(account: nat, name: string)
    | Provide(person: nat, identity: string)
    | Declare(claim: nat, person: nat, hmac: string, encrypted: string)
    | EndClaim(claim: nat)
    | Grant(person: nat, program: nat)
    | Attach(responsible: nat, dependent: nat)
    | Detach(responsible: nat, dependent: nat)

  function Do(db: Db, act: Act, policy: Policy): Db {
    match act
    case AskSelf(account, mode, now) => AskSelfTx(db, account, mode, now, policy).0
    case AskStaff(actor, person, now) => AskStaffTx(db, actor, person, now, policy).0
    case Retract(account, now) => RetractTx(db, account, now).0
    case Execute(k, now, draws) => EraseTx(db, k, now, draws).0
    case Notice(k, now) => NoticeTx(db, k, now, policy).0
    case _ => Ordinary(db, act)
  }

  /** A refused act changes nothing. */
  function Ordinary(db: Db, act: Act): Db {
    match act
    case OpenAccount(account, person, staff, salt) =>
      if account in db.accounts || person in db.persons then db
      else
        db.(persons := db.persons[person := Person(None, salt)],
            accounts := db.accounts[account := Account(person, true, staff, None)])
    case OpenDependent(person, responsible, salt) =>
      if person in db.persons || !HasActiveAccount(db, responsible) || person == responsible then db
      else db.(persons := db.persons[person := Person(None, salt)], links := db.links + {(responsible, person)})
    case Deactivate(account) =>
      if account in db.accounts
      then db.(accounts := db.accounts[account := db.accounts[account].(active := false)]) else db
    case Rename(account, name) =>
      if account in db.accounts && !IsErased(db, db.accounts[account].person)
      then db.(accounts := db.accounts[account := db.accounts[account].(displayName := Some(name))]) else db
    case Provide(person, identity) =>
      if person in db.persons && !IsErased(db, person)
      then db.(persons := db.persons[person := db.persons[person].(identity := Some(identity))]) else db
    case Declare(claim, person, hmac, encrypted) =>
      if claim !in db.claims && person in db.persons && !IsErased(db, person)
      then db.(claims := db.claims[claim := PhoneClaim(person, true, hmac, encrypted)]) else db
    case EndClaim(claim) =>
      if claim in db.claims then db.(claims := db.claims[claim := db.claims[claim].(alive := false)]) else db
    case Grant(person, program) =>
      if person in db.persons && !IsErased(db, person) then db.(grants := db.grants + {(person, program)}) else db
    case Attach(responsible, dependent) =>
      if responsible != dependent && dependent in db.persons
         && HasActiveAccount(db, responsible) && !HasActiveAccount(db, dependent)
      then db.(links := db.links + {(responsible, dependent)}) else db
    case Detach(responsible, dependent) =>
      var after := db.(links := db.links - {(responsible, dependent)});
      if LeavesOrphan(db, after) then db else after
    case _ => db
  }

  // ---------------------------------------------------------------------------
  // The lifecycle
  // ---------------------------------------------------------------------------

  predicate DemandOk(d: Demand, policy: Policy) {
    && d.effectiveAfter == (if d.mode == IMMEDIATE then d.requestedAt else d.requestedAt + policy.retractionSeconds)
    && (d.status == RETRACTED <==> d.retractedAt.Some?)
    && (d.status == COMPLETED <==> d.completedAt.Some?)
    && (d.retractedAt.Some? ==> d.retractedAt.value < d.effectiveAfter)
    && (d.completedAt.Some? ==> d.completedAt.value >= d.effectiveAfter)
    && (d.notifiedAt.Some? ==> d.mode == DELAYED && d.notifiedAt.value >= d.effectiveAfter - policy.leadSeconds)
  }

  /** Nothing that identifies the person is left, and nothing is open in their name. */
  ghost predicate Destroyed(db: Db, person: nat) {
    && (person in db.persons ==> db.persons[person].identity.None?)
    && (forall a <- db.accounts :: db.accounts[a].person == person ==>
          !db.accounts[a].active && db.accounts[a].displayName.None?)
    && (forall c <- db.claims :: db.claims[c].person == person ==>
          !db.claims[c].alive && "ERASED:" <= db.claims[c].phoneHmac && "ERASED:" <= db.claims[c].phoneEncrypted)
    && (forall g <- db.grants :: g.0 != person)
    && (forall l <- db.links :: l.0 != person)
  }

  ghost predicate DemandsOk(db: Db, policy: Policy) {
    && (forall k :: 0 <= k < |db.demands| ==> DemandOk(db.demands[k], policy))
    && (forall k :: 0 <= k < |db.demands| ==> db.demands[k].person in db.persons)
    && (forall i, j :: 0 <= i < j < |db.demands| && db.demands[i].person == db.demands[j].person
          ==> db.demands[i].status == RETRACTED)
  }

  predicate Notified(db: Db, k: nat) { k < |db.demands| && db.demands[k].notifiedAt.Some? }

  /** One notice in the outbox for each demand marked as notified, and none besides. */
  ghost predicate NoticesOk(db: Db) {
    forall k: nat :: db.notices[k] == if Notified(db, k) then 1 else 0
  }

  ghost predicate ErasedOk(db: Db) {
    forall p | IsErased(db, p) :: Destroyed(db, p)
  }

  ghost predicate TablesOk(db: Db) {
    && (forall l <- db.links :: l.0 != l.1)
    && (forall a <- db.accounts :: db.accounts[a].person in db.persons)
  }

  ghost predicate Good(db: Db, policy: Policy) {
    DemandsOk(db, policy) && NoticesOk(db) && ErasedOk(db) && TablesOk(db)
  }

  /** Steps that neither send a notice nor change who was notified. */
  lemma NoticesStay(db: Db, after: Db)
    requires NoticesOk(db) && after.notices == db.notices
    requires forall k: nat :: Notified(after, k) <==> Notified(db, k)
    ensures NoticesOk(after)
  {
    forall i: nat ensures after.notices[i] == if Notified(after, i) then 1 else 0 {
      assert db.notices[i] == if Notified(db, i) then 1 else 0;
    }
  }

  lemma AskKeepsGood(db: Db, person: nat, mode: Mode, now: int, policy: Policy)
    requires Good(db, policy) && person in db.persons
    ensures Good(Ask(db, person, mode, now, policy).0, policy)
  {
    var (after, verdict) := Ask(db, person, mode, now, policy);
    if verdict.Requested? {
      NoticesStay(db, after);
      forall p | IsErased(after, p) ensures Destroyed(after, p) {
        assert IsErased(db, p);
      }
      forall i | 0 <= i < |db.demands| && db.demands[i].person == person ensures db.demands[i].status == RETRACTED {
      }
    }
  }

  lemma RetractKeepsGood(db: Db, account: nat, now: int, policy: Policy)
    requires Good(db, policy)
    ensures Good(RetractTx(db, account, now).0, policy)
  {
    var after := RetractTx(db, account, now).0;
    NoticesStay(db, after);
    forall p | IsErased(after, p) ensures Destroyed(after, p) {
      assert IsErased(db, p);
    }
  }

  lemma NoticeKeepsGood(db: Db, k: nat, now: int, policy: Policy)
    requires Good(db, policy)
    ensures Good(NoticeTx(db, k, now, policy).0, policy)
  {
    var after := NoticeTx(db, k, now, policy).0;
    forall i: nat ensures after.notices[i] == if Notified(after, i) then 1 else 0 {
      assert db.notices[i] == if Notified(db, i) then 1 else 0;
    }
    forall p | IsErased(after, p) ensures Destroyed(after, p) {
      assert IsErased(db, p);
    }
  }

  lemma DestroyDestroys(db: Db, k: nat, now: int, draws: Draws, p: nat)
    requires k < |db.demands| && (p == db.demands[k].person || Destroyed(db, p))
    ensures Destroyed(Destroy(db, k, now, draws), p)
  {
  }

  lemma EraseKeepsGood(db: Db, k: nat, now: int, draws: Draws, policy: Policy)
    requires Good(db, policy)
    ensures Good(EraseTx(db, k, now, draws).0, policy)
  {
    var (after, verdict) := EraseTx(db, k, now, draws);
    if verdict == Completed {
      NoticesStay(db, after);
      forall p | IsErased(after, p) ensures Destroyed(after, p) {
        if p != db.demands[k].person { assert IsErased(db, p); }
        DestroyDestroys(db, k, now, draws, p);
      }
    }
  }

  lemma OrdinaryKeepsGood(db: Db, act: Act, policy: Policy)
    requires Good(db, policy)
    ensures Good(Ordinary(db, act), policy)
  {
    var after := Ordinary(db, act);
    assert after.demands == db.demands && after.notices == db.notices;
    NoticesStay(db, after);
    forall p | IsErased(after, p) ensures Destroyed(after, p) {
      assert IsErased(db, p) && Destroyed(db, p);
      assert p in db.persons;
      StaysDestroyed(db, act, p);
    }
  }

  /** The re-identification walls: no ordinary act undoes a destruction. */
  lemma StaysDestroyed(db: Db, act: Act, p: nat)
    requires IsErased(db, p) && Destroyed(db, p) && p in db.persons
    ensures Destroyed(Ordinary(db, act), p)
  {
    assert !HasActiveAccount(db, p);
  }

  lemma DoKeepsGood(db: Db, act: Act, policy: Policy)
    requires Good(db, policy)
    ensures Good(Do(db, act, policy), policy)
  {
    match act
    case AskSelf(account, mode, now) =>
      if account in db.accounts { AskKeepsGood(db, db.accounts[account].person, mode, now, policy); }
    case AskStaff(_, person, now) =>
      if person in db.persons { AskKeepsGood(db, person, IMMEDIATE, now, policy); }
    case Retract(account, now) => RetractKeepsGood(db, account, now, policy);
    case Execute(k, now, draws) => EraseKeepsGood(db, k, now, draws, policy);
    case Notice(k, now) => NoticeKeepsGood(db, k, now, policy);
    case _ => OrdinaryKeepsGood(db, act, policy);
  }
}
