/**
  The click of a program (src/programs/dependent-access.service.ts, src/programs/reference-hmac.ts)
  over open_dependent_access of db/schema/024_reference_rotation_idempotency.sql: one dependent
  per program reference, recognised under every key of the reference keyring.
 */
module DependentAccesses {
  import opened Wrappers
  import opened Keyrings

  /** The reference keyring, its keys in insertion order. */
  datatype References = References(activeKeyId: string, keys: Material)

  datatype LastGrant = Open | ClosedBySelf | ClosedOtherwise

  datatype Program = Program(offered: bool, granted: bool)

  type IdemKey = (nat, string, string)

  /** `keys` is program_idempotency_keys: (program, key id, fingerprint) to the dependent. */
  datatype Db = Db(
    programs: map<nat, Program>,
    persons: map<nat, string>,
    erased: set<nat>,
    keys: map<IdemKey, nat>,
    grants: map<(nat, nat), LastGrant>)

  /** HMAC-SHA256 of a reference under a key. */
  type Hmac = (Bytes, string) -> string

  function ActiveMaterial(k: References): Option<Bytes> { MaterialFor(k.keys, k.activeKeyId) }

  function MaterialFor(keys: Material, keyId: string): Option<Bytes> {
    if keys == [] then None else if keys[0].0 == keyId then Some(keys[0].1) else MaterialFor(keys[1..], keyId)
  }

  /** The fingerprints of one reference under every key, as two parallel arrays. */
  method HashReferenceUnderAll(k: References, reference: string, hmac: Hmac) returns (keyIds: seq<string>, hmacs: seq<string>)
    ensures |keyIds| == |hmacs| == |k.keys|
    ensures forall i :: 0 <= i < |k.keys| ==> keyIds[i] == k.keys[i].0 && hmacs[i] == hmac(k.keys[i].1, reference)
    ensures Pairs(k.keys, reference, hmac) == (keyIds, hmacs)
  {
    keyIds, hmacs := [], [];
    var i := 0;
    while i < |k.keys|
      invariant 0 <= i <= |k.keys| && |keyIds| == |hmacs| == i
      invariant forall j :: 0 <= j < i ==> keyIds[j] == k.keys[j].0 && hmacs[j] == hmac(k.keys[j].1, reference)
    {
      keyIds := keyIds + [k.keys[i].0];
      hmacs := hmacs + [hmac(k.keys[i].1, reference)];
      i := i + 1;
    }
    assert keyIds == Pairs(k.keys, reference, hmac).0 && hmacs == Pairs(k.keys, reference, hmac).1;
  }

  function Pairs(keys: Material, reference: string, hmac: Hmac): (seq<string>, seq<string>) {
    (seq(|keys|, i requires 0 <= i < |keys| => keys[i].0),
     seq(|keys|, i requires 0 <= i < |keys| => hmac(keys[i].1, reference)))
  }

  // ---------------------------------------------------------------------------
  // One transaction
  // ---------------------------------------------------------------------------

  datatype Call = Call(program: nat, activeKeyId: string, activeHmac: string, lookupKeyIds: seq<string>, lookupHmacs: seq<string>)

  datatype Verdict =
    | Opened(identifier: string)
    | OpenedExisting(identifier: string)
    | OfAge
    | NotGrantedMode
    | RefusedClientCap
    | UnknownProgram
    | IdentifierCollision
    | Raised

  /** The dependent known under one of the pairs. */
  function LookUp(keys: map<IdemKey, nat>, program: nat, keyIds: seq<string>, hmacs: seq<string>): Option<nat>
    requires |keyIds| == |hmacs|
  {
    if keyIds == [] then None
    else if (program, keyIds[0], hmacs[0]) in keys then Some(keys[(program, keyIds[0], hmacs[0])])
    else LookUp(keys, program, keyIds[1..], hmacs[1..])
  }

  predicate ShapeRefused(c: Call) {
    |c.lookupHmacs| != |c.lookupKeyIds| || c.lookupHmacs == []
    || c.activeHmac !in c.lookupHmacs || c.activeKeyId !in c.lookupKeyIds
  }

  /** The gates before the lookup; the age wall and the cap of the invitation are the world's answer. */
  function Gate(db: Db, c: Call, ofAge: bool): Option<Verdict> {
    if ShapeRefused(c) then Some(Raised)
    else if c.program !in db.programs || !db.programs[c.program].offered then Some(UnknownProgram)
    else if !db.programs[c.program].granted then Some(NotGrantedMode)
    else if ofAge then Some(OfAge)
    else None
  }

  /** What follows the lookup: the invitation's cap, the birth, the grant. */
  function Finish(db: Db, c: Call, existing: Option<nat>, identifier: string, rowId: nat, capRefused: bool): (Db, Verdict) {
    if capRefused then (db, RefusedClientCap)
    else if existing.None? then
      if identifier in db.persons.Values then (db, IdentifierCollision)
      else if rowId in db.persons || (c.program, c.activeKeyId, c.activeHmac) in db.keys then (db, Raised)
      else
        (db.(persons := db.persons[rowId := identifier],
             keys := db.keys[(c.program, c.activeKeyId, c.activeHmac) := rowId],
             grants := db.grants[(rowId, c.program) := Open]),
         Opened(identifier))
    else
      var p := existing.value;
      if p !in db.persons then (db, Raised)
      else if (p, c.program) in db.grants && db.grants[(p, c.program)] != ClosedOtherwise then
        (db, OpenedExisting(db.persons[p]))
      else if p in db.erased then (db, Raised)
      else (db.(grants := db.grants[(p, c.program) := Open]), OpenedExisting(db.persons[p]))
  }

  function OpenTx(db: Db, c: Call, identifier: string, rowId: nat, ofAge: bool, capRefused: bool): (Db, Verdict) {
    match Gate(db, c, ofAge)
    case Some(v) => (db, v)
    case None => Finish(db, c, LookUp(db.keys, c.program, c.lookupKeyIds, c.lookupHmacs), identifier, rowId, capRefused)
  }

  // ---------------------------------------------------------------------------
  // The service
  // ---------------------------------------------------------------------------

  datatype Outcome =
    | Accepted(identifier: string)
    | AnsweredOfAge
    | AnsweredNotGranted
    | Forbidden
    | Throttled
    | InvalidPhone
    | InvalidIdentity
    | Threw

  /** What others commit before an attempt, the drawn identifier and row id, and the world's two answers. */
  datatype Turn = Turn(before: Db -> Db, identifier: string, rowId: nat, ofAge: bool, capRefused: bool)

  const MAX_IDENTIFIER_DRAWS := 5

  function Translate(v: Verdict): Outcome {
    match v
    case Opened(identifier) => Accepted(identifier)
    case OpenedExisting(identifier) => Accepted(identifier)
    case OfAge => AnsweredOfAge
    case NotGrantedMode => AnsweredNotGranted
    case RefusedClientCap => Throttled
    case UnknownProgram => Forbidden
    case IdentifierCollision => Threw
    case Raised => Threw
  }

  /** One attempt, after what others committed. */
  function Try(db: Db, c: Call, t: Turn): (Db, Verdict) {
    OpenTx(t.before(db), c, t.identifier, t.rowId, t.ofAge, t.capRefused)
  }

  /** The attempts from draw `i` on: only a taken identifier is worth another draw. */
  function Attempts(db: Db, c: Call, turns: nat -> Turn, i: nat): (Db, Outcome)
    decreases MAX_IDENTIFIER_DRAWS - i
  {
    if i >= MAX_IDENTIFIER_DRAWS then (db, Threw)
    else
      var (after, v) := Try(db, c, turns(i));
      if v.IdentifierCollision? then Attempts(after, c, turns, i + 1) else (after, Translate(v))
  }

  /** The call every attempt makes under a keyring; None where the active key is missing. */
  function CallUnder(k: References, program: nat, reference: string, hmac: Hmac): Option<Call> {
    match ActiveMaterial(k)
    case None => None
    case Some(material) =>
      var (keyIds, hmacs) := Pairs(k.keys, reference, hmac);
      Some(Call(program, k.activeKeyId, hmac(material, reference), keyIds, hmacs))
  }

  class DependentAccessService {
    var db: Db
    const references: References
    const hmac: Hmac

    constructor (db: Db, references: References, hmac: Hmac)
      ensures this.db == db && this.references == references && this.hmac == hmac
    {
      this.db, this.references, this.hmac := db, references, hmac;
    }

    method OpenAccess(program: nat, reference: string, phoneOk: bool, identityOk: bool, turns: nat -> Turn) returns (r: Outcome)
      modifies `db
      ensures !phoneOk ==> r == InvalidPhone && db == old(db)
      ensures phoneOk && !identityOk ==> r == InvalidIdentity && db == old(db)
      ensures phoneOk && identityOk ==>
                match CallUnder(references, program, reference, hmac)
                case None => r == Threw && db == old(db)
                case Some(call) => (db, r) == Attempts(old(db), call, turns, 0)
    {
      if !phoneOk { return InvalidPhone; }
      if !identityOk { return InvalidIdentity; }
      var material := ActiveMaterial(references);
      if material.None? { return Threw; }
      var keyIds, hmacs := HashReferenceUnderAll(references, reference, hmac);
      var call := Call(program, references.activeKeyId, hmac(material.value, reference), keyIds, hmacs);
      var draw := 0;
      while draw < MAX_IDENTIFIER_DRAWS
        invariant 0 <= draw <= MAX_IDENTIFIER_DRAWS
        invariant Attempts(old(db), call, turns, 0) == Attempts(db, call, turns, draw)
      {
        var (after, verdict) := Try(db, call, turns(draw));
        db := after;
        if !verdict.IdentifierCollision? { return Translate(verdict); }
        draw := draw + 1;
      }
      return Threw;
    }
  }

  // ---------------------------------------------------------------------------
  // Runs
  // ---------------------------------------------------------------------------

  /** Fingerprints as they are, and the value each key identifier ever had. */
  datatype World = World(hmac: Hmac, values: string -> Bytes)

  ghost predicate Injective(w: World) {
    forall m, a, b :: w.hmac(m, a) == w.hmac(m, b) ==> a == b
  }

  /** An attempt under some keyring, or anything else that may commit. */
  datatype Act =
    | Attempt(program: nat, reference: string, keys: References, identifier: string, rowId: nat, ofAge: bool, capRefused: bool)
    | NewPerson(person: nat, name: string)
    | Offer(prog: nat, terms: Program)
    | CloseGrant(holder: nat, within: nat, bySelf: bool)
    | Erase(gone: nat)

  /** The keyring is one the service could assemble, and no key identifier changes its value. */
  ghost predicate Usable(k: References, w: World) {
    ActiveMaterial(k).Some? && forall i :: 0 <= i < |k.keys| ==> k.keys[i].1 == w.values(k.keys[i].0)
  }

  datatype Answer = Answer(program: nat, reference: string, identifier: string, created: bool)

  datatype State = State(db: Db, answers: seq<Answer>)

  function CallOf(a: Act, w: World): Call
    requires a.Attempt?
  {
    var (keyIds, hmacs) := Pairs(a.keys.keys, a.reference, w.hmac);
    Call(a.program, a.keys.activeKeyId, w.hmac(w.values(a.keys.activeKeyId), a.reference), keyIds, hmacs)
  }

  function Do(s: State, a: Act, w: World): State {
    match a
    case Attempt(program, reference, _, identifier, rowId, ofAge, capRefused) =>
      var (db, v) := OpenTx(s.db, CallOf(a, w), identifier, rowId, ofAge, capRefused);
      if v.Opened? then State(db, s.answers + [Answer(program, reference, v.identifier, true)])
      else if v.OpenedExisting? then State(db, s.answers + [Answer(program, reference, v.identifier, false)])
      else s.(db := db)
    case NewPerson(person, name) =>
      if person in s.db.persons || name in s.db.persons.Values then s
      else s.(db := s.db.(persons := s.db.persons[person := name]))
    case Offer(prog, terms) => s.(db := s.db.(programs := s.db.programs[prog := terms]))
    case CloseGrant(holder, within, bySelf) =>
      if (holder, within) in s.db.grants && s.db.grants[(holder, within)] == Open
      then s.(db := s.db.(grants := s.db.grants[(holder, within) := if bySelf then ClosedBySelf else ClosedOtherwise]))
      else s
    case Erase(gone) => s.(db := s.db.(erased := s.db.erased + {gone}))
  }

  function Run(s: State, acts: seq<Act>, w: World): State {
    if acts == [] then s else Do(Run(s, acts[..|acts| - 1], w), acts[|acts| - 1], w)
  }

  /** The keys a keyring knows. */
  ghost predicate Knows(k: References, keyId: string) {
    exists i :: 0 <= i < |k.keys| && k.keys[i].0 == keyId
  }

  /** Attempts for the reference keep every key that was active for an earlier one. */
  ghost predicate KeepsKeys(acts: seq<Act>, program: nat, reference: string, w: World) {
    && (forall i :: 0 <= i < |acts| && acts[i].Attempt? ==> Usable(acts[i].keys, w))
    && (forall i, j :: 0 <= i < j < |acts| && IsFor(acts[i], program, reference) && IsFor(acts[j], program, reference)
          ==> Knows(acts[j].keys, acts[i].keys.activeKeyId))
  }

  predicate IsFor(a: Act, program: nat, reference: string) {
    a.Attempt? && a.program == program && a.reference == reference
  }

  /** The entry of the reference under a key. */
  function EntryOf(program: nat, reference: string, keyId: string, w: World): IdemKey {
    (program, keyId, w.hmac(w.values(keyId), reference))
  }

  ghost predicate Recorded(db: Db, program: nat, reference: string, keyId: string, w: World) {
    EntryOf(program, reference, keyId, w) in db.keys
  }

  function Created(answers: seq<Answer>, program: nat, reference: string): nat {
    if answers == [] then 0
    else
      var a := answers[|answers| - 1];
      Created(answers[..|answers| - 1], program, reference)
      + if a.program == program && a.reference == reference && a.created then 1 else 0
  }

  /** Whoever is known under the reference is one person, and every answer named that person. */
  ghost predicate OnePerson(s: State, program: nat, reference: string, w: World) {
    && (forall k <- s.db.keys :: s.db.keys[k] in s.db.persons)
    && (forall k, l :: Recorded(s.db, program, reference, k, w) && Recorded(s.db, program, reference, l, w) ==> k == l)
    && (forall i :: 0 <= i < |s.answers| && s.answers[i].program == program && s.answers[i].reference == reference ==>
          exists k :: Recorded(s.db, program, reference, k, w)
                      && s.db.persons[s.db.keys[EntryOf(program, reference, k, w)]] == s.answers[i].identifier)
    && Created(s.answers, program, reference) <= 1
    && (Created(s.answers, program, reference) == 1 ==> exists k :: Recorded(s.db, program, reference, k, w))
  }

  /** Entries of the reference are under keys that were active for it. */
  ghost predicate UnderUsedKeys(s: State, acts: seq<Act>, program: nat, reference: string, w: World) {
    forall k :: Recorded(s.db, program, reference, k, w) ==>
      exists i :: 0 <= i < |acts| && IsFor(acts[i], program, reference) && acts[i].keys.activeKeyId == k
  }

  lemma {:induction false} LookUpFinds(keys: map<IdemKey, nat>, program: nat, keyIds: seq<string>, hmacs: seq<string>)
    requires |keyIds| == |hmacs|
    ensures LookUp(keys, program, keyIds, hmacs).None? <==>
              forall i :: 0 <= i < |keyIds| ==> (program, keyIds[i], hmacs[i]) !in keys
    ensures LookUp(keys, program, keyIds, hmacs).Some? ==>
              exists i :: 0 <= i < |keyIds| && (program, keyIds[i], hmacs[i]) in keys
                          && LookUp(keys, program, keyIds, hmacs).value == keys[(program, keyIds[i], hmacs[i])]
  {
    if keyIds != [] && (program, keyIds[0], hmacs[0]) !in keys {
      LookUpFinds(keys, program, keyIds[1..], hmacs[1..]);
      var rest := LookUp(keys, program, keyIds[1..], hmacs[1..]);
      if rest.Some? {
        var i :| 0 <= i < |keyIds[1..]| && (program, keyIds[1..][i], hmacs[1..][i]) in keys
                 && rest.value == keys[(program, keyIds[1..][i], hmacs[1..][i])];
        assert keyIds[i + 1] == keyIds[1..][i] && hmacs[i + 1] == hmacs[1..][i];
      }
      forall i | 0 <= i < |keyIds| && rest.None? ensures (program, keyIds[i], hmacs[i]) !in keys {
        if i > 0 { assert keyIds[1..][i - 1] == keyIds[i] && hmacs[1..][i - 1] == hmacs[i]; }
      }
    }
  }

  /** The lookup of an attempt, in terms of what is recorded. */
  lemma LookUpMeans(db: Db, a: Act, w: World)
    requires a.Attempt? && Usable(a.keys, w)
    ensures
      var c := CallOf(a, w);
      var found := LookUp(db.keys, c.program, c.lookupKeyIds, c.lookupHmacs);
      && (found.None? <==> forall k :: Knows(a.keys, k) ==> !Recorded(db, a.program, a.reference, k, w))
      && (found.Some? ==> exists k :: Knows(a.keys, k) && Recorded(db, a.program, a.reference, k, w)
                                      && found.value == db.keys[EntryOf(a.program, a.reference, k, w)])
  {
    var c := CallOf(a, w);
    LookUpFinds(db.keys, c.program, c.lookupKeyIds, c.lookupHmacs);
    forall i | 0 <= i < |a.keys.keys|
      ensures (c.program, c.lookupKeyIds[i], c.lookupHmacs[i]) == EntryOf(a.program, a.reference, a.keys.keys[i].0, w)
      ensures Knows(a.keys, a.keys.keys[i].0)
    {
    }
    var found := LookUp(db.keys, c.program, c.lookupKeyIds, c.lookupHmacs);
    if found.None? {
      forall k | Knows(a.keys, k) ensures !Recorded(db, a.program, a.reference, k, w) {
        var i :| 0 <= i < |a.keys.keys| && a.keys.keys[i].0 == k;
        assert (c.program, c.lookupKeyIds[i], c.lookupHmacs[i]) !in db.keys;
      }
    } else {
      var i :| 0 <= i < |c.lookupKeyIds| && (c.program, c.lookupKeyIds[i], c.lookupHmacs[i]) in db.keys
               && found.value == db.keys[(c.program, c.lookupKeyIds[i], c.lookupHmacs[i])];
      assert Knows(a.keys, a.keys.keys[i].0) && Recorded(db, a.program, a.reference, a.keys.keys[i].0, w);
    }
  }

  /** A dependent is born exactly when the gates are passed and no key of the keyring knows the reference. */
  lemma BornIff(db: Db, a: Act, w: World)
    requires a.Attempt? && Usable(a.keys, w)
    ensures
      OpenTx(db, CallOf(a, w), a.identifier, a.rowId, a.ofAge, a.capRefused).1.Opened? <==>
        && Gate(db, CallOf(a, w), a.ofAge).None? && !a.capRefused
        && a.identifier !in db.persons.Values && a.rowId !in db.persons
        && (forall k :: Knows(a.keys, k) ==> !Recorded(db, a.program, a.reference, k, w))
  {
    LookUpMeans(db, a, w);
    ActiveIsKnown(a.keys.keys, a.keys.activeKeyId);
    assert Knows(a.keys, a.keys.activeKeyId);
  }

  lemma {:induction false} ActiveIsKnown(keys: Material, keyId: string)
    ensures MaterialFor(keys, keyId).Some? <==> exists i :: 0 <= i < |keys| && keys[i].0 == keyId
  {
    if keys != [] && keys[0].0 != keyId {
      ActiveIsKnown(keys[1..], keyId);
      if i :| 0 <= i < |keys| && keys[i].0 == keyId { assert keys[1..][i - 1].0 == keyId; }
      if MaterialFor(keys, keyId).Some? {
        var i :| 0 <= i < |keys[1..]| && keys[1..][i].0 == keyId;
        assert keys[i + 1].0 == keyId;
      }
    }
  }

  // ---------------------------------------------------------------------------
  // One dependent per reference
  // ---------------------------------------------------------------------------

  /** A step that neither records nor answers for the reference, and keeps every person. */
  ghost predicate Elsewhere(s: State, e: State, program: nat, reference: string, w: World) {
    && (forall p <- s.db.persons :: p in e.db.persons && e.db.persons[p] == s.db.persons[p])
    && (forall k <- s.db.keys :: k in e.db.keys && e.db.keys[k] == s.db.keys[k])
    && (forall k <- e.db.keys :: e.db.keys[k] in e.db.persons)
    && (forall k :: Recorded(e.db, program, reference, k, w) ==> Recorded(s.db, program, reference, k, w))
    && s.answers <= e.answers
    && (forall i :: |s.answers| <= i < |e.answers| ==>
          !(e.answers[i].program == program && e.answers[i].reference == reference))
    && |e.answers| <= |s.answers| + 1
  }

  lemma CreatedAppend(answers: seq<Answer>, a: Answer, program: nat, reference: string)
    ensures Created(answers + [a], program, reference) ==
            Created(answers, program, reference) + if a.program == program && a.reference == reference && a.created then 1 else 0
  {
    assert (answers + [a])[..|answers|] == answers;
  }

  lemma ElsewhereKeeps(s: State, e: State, program: nat, reference: string, w: World)
    requires OnePerson(s, program, reference, w) && Elsewhere(s, e, program, reference, w)
    ensures OnePerson(e, program, reference, w)
  {
    if |e.answers| > |s.answers| {
      assert e.answers == s.answers + [e.answers[|s.answers|]];
      CreatedAppend(s.answers, e.answers[|s.answers|], program, reference);
    } else {
      assert e.answers == s.answers;
    }
    forall k | Recorded(s.db, program, reference, k, w) ensures Recorded(e.db, program, reference, k, w) {}
    forall i | 0 <= i < |e.answers| && e.answers[i].program == program && e.answers[i].reference == reference
      ensures exists k :: Recorded(e.db, program, reference, k, w)
                          && e.db.persons[e.db.keys[EntryOf(program, reference, k, w)]] == e.answers[i].identifier
    {
      assert e.answers[i] == s.answers[i];
      var k :| Recorded(s.db, program, reference, k, w)
               && s.db.persons[s.db.keys[EntryOf(program, reference, k, w)]] == s.answers[i].identifier;
      assert Recorded(e.db, program, reference, k, w);
    }
  }

  lemma OthersAreElsewhere(s: State, a: Act, program: nat, reference: string, w: World)
    requires (forall k <- s.db.keys :: s.db.keys[k] in s.db.persons) && Injective(w)
    requires !IsFor(a, program, reference) && (a.Attempt? ==> Usable(a.keys, w))
    ensures Elsewhere(s, Do(s, a, w), program, reference, w)
  {
    if a.Attempt? {
      var c := CallOf(a, w);
      forall k | Recorded(Do(s, a, w).db, program, reference, k, w) ensures Recorded(s.db, program, reference, k, w) {
        assert EntryOf(program, reference, k, w) != (c.program, c.activeKeyId, c.activeHmac);
      }
    }
  }

  /** An attempt for the reference, under a keyring that knows every key it is recorded under. */
  lemma AttemptKeeps(s: State, a: Act, w: World)
    requires a.Attempt? && Usable(a.keys, w) && OnePerson(s, a.program, a.reference, w)
    requires forall k :: Recorded(s.db, a.program, a.reference, k, w) ==> Knows(a.keys, k)
    ensures OnePerson(Do(s, a, w), a.program, a.reference, w)
    ensures forall k :: Recorded(Do(s, a, w).db, a.program, a.reference, k, w) ==>
              Recorded(s.db, a.program, a.reference, k, w) || k == a.keys.activeKeyId
  {
    LookUpMeans(s.db, a, w);
    BornIff(s.db, a, w);
    var e := Do(s, a, w);
    var v := OpenTx(s.db, CallOf(a, w), a.identifier, a.rowId, a.ofAge, a.capRefused).1;
    if v.Opened? {
      FirstAnswer(s, a, w);
    } else if v.OpenedExisting? {
      LaterAnswer(s, a, w);
    }
  }

  /** The birth: nobody was known under the reference, and nothing had been answered for it. */
  lemma FirstAnswer(s: State, a: Act, w: World)
    requires a.Attempt? && Usable(a.keys, w) && OnePerson(s, a.program, a.reference, w)
    requires forall k :: !Recorded(s.db, a.program, a.reference, k, w)
    requires OpenTx(s.db, CallOf(a, w), a.identifier, a.rowId, a.ofAge, a.capRefused).1.Opened?
    ensures OnePerson(Do(s, a, w), a.program, a.reference, w)
    ensures forall k :: Recorded(Do(s, a, w).db, a.program, a.reference, k, w) ==> k == a.keys.activeKeyId
  {
    var e := Do(s, a, w);
    CreatedAppend(s.answers, e.answers[|s.answers|], a.program, a.reference);
    assert Recorded(e.db, a.program, a.reference, a.keys.activeKeyId, w);
    forall k | Recorded(e.db, a.program, a.reference, k, w) ensures k == a.keys.activeKeyId {
      assert !Recorded(s.db, a.program, a.reference, k, w);
    }
    assert forall i :: 0 <= i < |s.answers| ==> !(s.answers[i].program == a.program && s.answers[i].reference == a.reference);
    forall i | 0 <= i < |e.answers| && e.answers[i].program == a.program && e.answers[i].reference == a.reference
      ensures e.db.persons[e.db.keys[EntryOf(a.program, a.reference, a.keys.activeKeyId, w)]] == e.answers[i].identifier
    {
      assert i == |s.answers|;
    }
  }

  /** A later click: the person answered is the one known. */
  lemma LaterAnswer(s: State, a: Act, w: World)
    requires a.Attempt? && Usable(a.keys, w) && OnePerson(s, a.program, a.reference, w)
    requires OpenTx(s.db, CallOf(a, w), a.identifier, a.rowId, a.ofAge, a.capRefused).1.OpenedExisting?
    ensures OnePerson(Do(s, a, w), a.program, a.reference, w)
    ensures Do(s, a, w).db.keys == s.db.keys
  {
    LookUpMeans(s.db, a, w);
    var e := Do(s, a, w);
    CreatedAppend(s.answers, e.answers[|s.answers|], a.program, a.reference);
    var k :| Recorded(s.db, a.program, a.reference, k, w)
             && LookUp(s.db.keys, a.program, CallOf(a, w).lookupKeyIds, CallOf(a, w).lookupHmacs).value
                == s.db.keys[EntryOf(a.program, a.reference, k, w)];
    assert Recorded(e.db, a.program, a.reference, k, w);
    forall l ensures Recorded(e.db, a.program, a.reference, l, w) <==> Recorded(s.db, a.program, a.reference, l, w) {}
    forall i | 0 <= i < |e.answers| && e.answers[i].program == a.program && e.answers[i].reference == a.reference
      ensures exists l :: Recorded(e.db, a.program, a.reference, l, w)
                          && e.db.persons[e.db.keys[EntryOf(a.program, a.reference, l, w)]] == e.answers[i].identifier
    {
      if i < |s.answers| {
        var l :| Recorded(s.db, a.program, a.reference, l, w)
                 && s.db.persons[s.db.keys[EntryOf(a.program, a.reference, l, w)]] == s.answers[i].identifier;
        assert Recorded(e.db, a.program, a.reference, l, w);
      }
    }
  }

  ghost const NOTHING := State(Db(map[], map[], {}, map[], map[]), [])

  lemma {:induction false} RunKeepsOnePerson(acts: seq<Act>, program: nat, reference: string, w: World)
    requires Injective(w) && KeepsKeys(acts, program, reference, w)
    ensures OnePerson(Run(NOTHING, acts, w), program, reference, w)
    ensures UnderUsedKeys(Run(NOTHING, acts, w), acts, program, reference, w)
  {
    if acts != [] {
      var before, a := acts[..|acts| - 1], acts[|acts| - 1];
      RunKeepsOnePerson(before, program, reference, w);
      var s := Run(NOTHING, before, w);
      if IsFor(a, program, reference) {
        forall k | Recorded(s.db, program, reference, k, w) ensures Knows(a.keys, k) {
          var i :| 0 <= i < |before| && IsFor(before[i], program, reference) && before[i].keys.activeKeyId == k;
          assert before[i] == acts[i];
        }
        AttemptKeeps(s, a, w);
      } else {
        OthersAreElsewhere(s, a, program, reference, w);
        ElsewhereKeeps(s, Do(s, a, w), program, reference, w);
      }
      StillUsed(s, Do(s, a, w), acts, program, reference, w);
    }
  }

  lemma StillUsed(s: State, e: State, acts: seq<Act>, program: nat, reference: string, w: World)
    requires acts != [] && UnderUsedKeys(s, acts[..|acts| - 1], program, reference, w)
    requires forall k :: Recorded(e.db, program, reference, k, w) ==>
               Recorded(s.db, program, reference, k, w)
               || (IsFor(acts[|acts| - 1], program, reference) && k == acts[|acts| - 1].keys.activeKeyId)
    ensures UnderUsedKeys(e, acts, program, reference, w)
  {
    forall k | Recorded(e.db, program, reference, k, w)
      ensures exists i :: 0 <= i < |acts| && IsFor(acts[i], program, reference) && acts[i].keys.activeKeyId == k
    {
      if Recorded(s.db, program, reference, k, w) {
        var i :| 0 <= i < |acts[..|acts| - 1]| && IsFor(acts[..|acts| - 1][i], program, reference)
                 && acts[..|acts| - 1][i].keys.activeKeyId == k;
        assert acts[i] == acts[..|acts| - 1][i];
      }
    }
  }

  /**
    Whatever happens in between, while the active key changes and earlier active keys are kept:
    one reference of one program gives birth to at most one dependent, and every accepted call
    answers with the same identifier.
   */
  lemma OneDependentPerReference(acts: seq<Act>, program: nat, reference: string, w: World)
    requires Injective(w) && KeepsKeys(acts, program, reference, w)
    ensures
      var answers := Run(NOTHING, acts, w).answers;
      && Created(answers, program, reference) <= 1
      && (forall i, j :: 0 <= i < |answers| && 0 <= j < |answers|
                         && answers[i].program == program && answers[i].reference == reference
                         && answers[j].program == program && answers[j].reference == reference
            ==> answers[i].identifier == answers[j].identifier)
  {
    RunKeepsOnePerson(acts, program, reference, w);
  }

  // ---------------------------------------------------------------------------
  // What a click does to the grant
  // ---------------------------------------------------------------------------

  /** The answer names `p`, whose grant is open unless the family closed it; no other grant moved. */
  ghost predicate Answered(db: Db, after: Db, p: nat, program: nat, v: Verdict)
    requires v.Opened? || v.OpenedExisting?
  {
    && p in after.persons && after.persons[p] == v.identifier
    && after.grants == db.grants[(p, program) :=
         if v.OpenedExisting? && (p, program) in db.grants && db.grants[(p, program)] == ClosedBySelf then ClosedBySelf else Open]
    && (v.OpenedExisting? ==> after == db.(grants := after.grants))
  }

  /** An accepted click passed every gate and settled one grant; any other verdict changes nothing. */
  lemma ClickAndGrant(db: Db, c: Call, identifier: string, rowId: nat, ofAge: bool, capRefused: bool)
    ensures
      var (after, v) := OpenTx(db, c, identifier, rowId, ofAge, capRefused);
      if v.Opened? || v.OpenedExisting? then
        && c.program in db.programs && db.programs[c.program] == Program(true, true)
        && !ofAge && !capRefused
        && exists p :: Answered(db, after, p, c.program, v)
      else after == db
  {
    var (after, v) := OpenTx(db, c, identifier, rowId, ofAge, capRefused);
    if v.Opened? {
      assert Answered(db, after, rowId, c.program, v);
    } else if v.OpenedExisting? {
      var p := LookUp(db.keys, c.program, c.lookupKeyIds, c.lookupHmacs).value;
      if (p, c.program) in db.grants { assert db.grants[(p, c.program) := db.grants[(p, c.program)]] == db.grants; }
      assert Answered(db, after, p, c.program, v);
    }
  }

  /** A grant the family closed is never reopened, however often the program clicks. */
  lemma {:induction false} FamilyClosureHolds(s: State, acts: seq<Act>, p: nat, program: nat, w: World)
    requires p in s.db.persons && (p, program) in s.db.grants && s.db.grants[(p, program)] == ClosedBySelf
    ensures
      var db := Run(s, acts, w).db;
      p in db.persons && (p, program) in db.grants && db.grants[(p, program)] == ClosedBySelf
  {
    if acts != [] {
      FamilyClosureHolds(s, acts[..|acts| - 1], p, program, w);
    }
  }

  // ---------------------------------------------------------------------------
  // What the program is told
  // ---------------------------------------------------------------------------

  /** The keyring knows the reference. */
  ghost predicate Known(db: Db, a: Act, w: World)
    requires a.Attempt?
  {
    exists k :: Knows(a.keys, k) && Recorded(db, a.program, a.reference, k, w)
  }

  /** The program is offered, granted, the person is a minor, and the invitation is within its cap. */
  predicate GatesOpen(db: Db, a: Act)
    requires a.Attempt?
  {
    a.program in db.programs && db.programs[a.program] == Program(true, true) && !a.ofAge && !a.capRefused
  }

  /** Under a keyring the service can use, the call has the shape the database asks for. */
  lemma CallHasShape(a: Act, w: World)
    requires a.Attempt? && Usable(a.keys, w)
    ensures !ShapeRefused(CallOf(a, w))
  {
    ActiveIsKnown(a.keys.keys, a.keys.activeKeyId);
    var i :| 0 <= i < |a.keys.keys| && a.keys.keys[i].0 == a.keys.activeKeyId;
    var c := CallOf(a, w);
    assert c.lookupKeyIds[i] == c.activeKeyId && c.lookupHmacs[i] == c.activeHmac;
  }

  /** Each refusal is told exactly for its reason, the first that holds. */
  lemma RefusalIff(db: Db, a: Act, w: World)
    requires a.Attempt? && Usable(a.keys, w)
    ensures
      var o := Translate(OpenTx(db, CallOf(a, w), a.identifier, a.rowId, a.ofAge, a.capRefused).1);
      var offered := a.program in db.programs && db.programs[a.program].offered;
      && (o == Forbidden <==> !offered)
      && (o == AnsweredNotGranted <==> offered && !db.programs[a.program].granted)
      && (o == AnsweredOfAge <==> offered && db.programs[a.program].granted && a.ofAge)
      && (o == Throttled <==> offered && db.programs[a.program].granted && !a.ofAge && a.capRefused)
      && (o.Accepted? || o.Threw? <==> GatesOpen(db, a))
  {
    CallHasShape(a, w);
  }

  /** A first click is accepted under the identifier drawn, exactly when it and its row are free; it throws otherwise. */
  lemma FirstClickIff(db: Db, a: Act, w: World)
    requires a.Attempt? && Usable(a.keys, w) && GatesOpen(db, a) && !Known(db, a, w)
    ensures
      var v := OpenTx(db, CallOf(a, w), a.identifier, a.rowId, a.ofAge, a.capRefused).1;
      && (Translate(v) == Accepted(a.identifier) <==> a.identifier !in db.persons.Values && a.rowId !in db.persons)
      && (Translate(v) == Threw <==> !(a.identifier !in db.persons.Values && a.rowId !in db.persons))
      && (v == IdentifierCollision <==> a.identifier in db.persons.Values)
  {
    CallHasShape(a, w);
    LookUpMeans(db, a, w);
    BornIff(db, a, w);
  }

  /** A later click is accepted with the identifier of the dependent on record, unless they were erased and their grant has to be reopened. */
  lemma LaterClickIff(db: Db, a: Act, w: World) returns (p: nat)
    requires a.Attempt? && Usable(a.keys, w) && GatesOpen(db, a) && Known(db, a, w)
    requires forall k <- db.keys :: db.keys[k] in db.persons
    ensures exists k :: Knows(a.keys, k) && Recorded(db, a.program, a.reference, k, w)
                        && p == db.keys[EntryOf(a.program, a.reference, k, w)]
    ensures p in db.persons
    ensures
      var (after, v) := OpenTx(db, CallOf(a, w), a.identifier, a.rowId, a.ofAge, a.capRefused);
      var standing := (p, a.program) in db.grants && db.grants[(p, a.program)] != ClosedOtherwise;
      && (Translate(v) == Accepted(db.persons[p]) <==> standing || p !in db.erased)
      && (Translate(v) == Threw <==> !(standing || p !in db.erased))
      && (v.OpenedExisting? ==> after == if standing then db else db.(grants := db.grants[(p, a.program) := Open]))
  {
    CallHasShape(a, w);
    LookUpMeans(db, a, w);
    p := LookUp(db.keys, a.program, CallOf(a, w).lookupKeyIds, CallOf(a, w).lookupHmacs).value;
  }

  // ---------------------------------------------------------------------------
  // Where the two hypotheses bite
  // ---------------------------------------------------------------------------

  /**
    Two first clicks that look up before either commits: the second gives birth too exactly when
    their active keys differ; under one active key the advisory lock forbids this interleaving,
    and the uniqueness of the entries would refuse it.
   */
  lemma OverlappingClicksForkIff(db: Db, a: Act, b: Act, w: World)
    requires a.Attempt? && b.Attempt? && Usable(a.keys, w) && Usable(b.keys, w)
    requires a.program == b.program && a.reference == b.reference
    requires !a.capRefused && !b.capRefused
    requires a.identifier != b.identifier && a.identifier !in db.persons.Values && b.identifier !in db.persons.Values
    requires a.rowId != b.rowId && a.rowId !in db.persons && b.rowId !in db.persons
    requires !Recorded(db, a.program, a.reference, a.keys.activeKeyId, w)
    requires !Recorded(db, a.program, a.reference, b.keys.activeKeyId, w)
    ensures
      var first := Finish(db, CallOf(a, w), None, a.identifier, a.rowId, a.capRefused);
      var second := Finish(first.0, CallOf(b, w), None, b.identifier, b.rowId, b.capRefused);
      first.1.Opened? && (second.1.Opened? <==> a.keys.activeKeyId != b.keys.activeKeyId)
  {
    var ca, cb := CallOf(a, w), CallOf(b, w);
    assert (ca.program, ca.activeKeyId, ca.activeHmac) == EntryOf(a.program, a.reference, a.keys.activeKeyId, w);
    assert (cb.program, cb.activeKeyId, cb.activeHmac) == EntryOf(a.program, a.reference, b.keys.activeKeyId, w);
    var first := Finish(db, ca, None, a.identifier, a.rowId, a.capRefused).0;
    assert first.persons == db.persons[a.rowId := a.identifier];
    assert b.identifier !in first.persons.Values;
  }

  /** A keyring that dropped the key of the first click gives birth to a second dependent. */
  lemma DroppedKeyForks(w: World, program: nat, reference: string)
    requires Injective(w)
    ensures
      var before := References("k1", [("k1", w.values("k1"))]);
      var after := References("k2", [("k2", w.values("k2"))]);
      var acts := [Offer(program, Program(true, true)),
                   Attempt(program, reference, before, "A", 1, false, false),
                   Attempt(program, reference, after, "B", 2, false, false)];
      Created(Run(NOTHING, acts, w).answers, program, reference) == 2
  {
    var before := References("k1", [("k1", w.values("k1"))]);
    var after := References("k2", [("k2", w.values("k2"))]);
    var x := Offer(program, Program(true, true));
    var y := Attempt(program, reference, before, "A", 1, false, false);
    var z := Attempt(program, reference, after, "B", 2, false, false);
    var s1 := Do(NOTHING, x, w);
    var s2 := Do(s1, y, w);
    RunThree(NOTHING, x, y, z, w);
    assert s2.answers == s1.answers + [Answer(program, reference, "A", true)] && s2.db.persons == map[1 := "A"] by {
      OnlyKeyBorn(s1, y, "k1", w);
    }
    assert s2.db.programs == s1.db.programs && !Recorded(s2.db, program, reference, "k2", w) by {
      OnlyKeyBorn(s1, y, "k1", w);
    }
    assert Do(s2, z, w).answers == s2.answers + [Answer(program, reference, "B", true)] by {
      assert "B" !in s2.db.persons.Values;
      OnlyKeyBorn(s2, z, "k2", w);
    }
    CreatedAppend(s1.answers, Answer(program, reference, "A", true), program, reference);
    CreatedAppend(s2.answers, Answer(program, reference, "B", true), program, reference);
  }

  lemma RunThree(s: State, x: Act, y: Act, z: Act, w: World)
    ensures Run(s, [x, y, z], w) == Do(Do(Do(s, x, w), y, w), z, w)
  {
    assert [x, y, z][..2] == [x, y] && [x, y][..1] == [x] && [x][..0] == [];
    assert Run(s, [x], w) == Do(s, x, w);
    assert Run(s, [x, y], w) == Do(Do(s, x, w), y, w);
  }

  lemma OnlyKeyBorn(s: State, a: Act, keyId: string, w: World)
    requires a.Attempt? && a.keys == References(keyId, [(keyId, w.values(keyId))]) && !a.ofAge && !a.capRefused
    requires a.program in s.db.programs && s.db.programs[a.program] == Program(true, true)
    requires a.identifier !in s.db.persons.Values && a.rowId !in s.db.persons
    requires !Recorded(s.db, a.program, a.reference, keyId, w)
    ensures Do(s, a, w).answers == s.answers + [Answer(a.program, a.reference, a.identifier, true)]
    ensures Do(s, a, w).db.persons == s.db.persons[a.rowId := a.identifier]
    ensures Do(s, a, w).db.programs == s.db.programs
    ensures Do(s, a, w).db.keys == s.db.keys[EntryOf(a.program, a.reference, keyId, w) := a.rowId]
  {
    var c := CallOf(a, w);
    assert c.lookupKeyIds == [keyId] && c.lookupHmacs == [w.hmac(w.values(keyId), a.reference)];
    assert c.lookupKeyIds[0] == keyId && c.lookupHmacs[0] == c.activeHmac;
    assert c.lookupKeyIds[1..] == [];
    BornIff(s.db, a, w);
  }
}
