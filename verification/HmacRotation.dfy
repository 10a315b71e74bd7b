/**
  Rotation of the phone fingerprint key (scripts/rotate-phone-hmac.ts): one transaction that
  re-hashes every ACTIVE claim and then switches the reference, under the uniqueness index and
  the guards of db/schema/006_phone_claims.sql and 025_hmac_rotation_wall.sql.
 */
module HmacRotations {
  import opened Wrappers
  import opened VerifiedAddresses

  type Claims = map<nat, Claim>

  /** uq_phone_claims_active_line: no two ACTIVE claims share (key, fingerprint). */
  predicate Unique(claims: Claims) {
    forall i, j | i in claims && j in claims && i != j :: !Clash(claims[i], claims[j])
  }

  predicate Clash(a: Claim, b: Claim) {
    a.status == ACTIVE && b.status == ACTIVE && a.hmacKeyId == b.hmacKeyId && a.phoneHmac == b.phoneHmac
  }

  predicate IsStale(c: Claim, target: string) { c.status == ACTIVE && c.hmacKeyId != target }

  function StaleIds(claims: Claims, target: string): set<nat> {
    set id | id in claims && IsStale(claims[id], target)
  }

  /** The fingerprint under the target key of the phone the claim resolves to. */
  function Next(db: Registry, id: nat, target: string, crypto: Crypto): Option<string> {
    match Resolve(db, db, id, true, crypto)
    case Resolved(phone) => crypto.fingerprint(target, phone)
    case NoAddress => None
    case IntegrityViolation => None
  }

  function Rehash(c: Claim, next: Option<string>, target: string): Claim {
    if next.Some? then c.(phoneHmac := next.value, hmacKeyId := target) else c
  }

  /** The table once the claims `done` are re-hashed. */
  function Rehashed(db: Registry, done: set<nat>, target: string, crypto: Crypto): Claims {
    map id <- db.claims :: if id in done then Rehash(db.claims[id], Next(db, id, target, crypto), target) else db.claims[id]
  }

  function AllRehashed(db: Registry, target: string, crypto: Crypto): Registry {
    db.(claims := Rehashed(db, StaleIds(db.claims, target), target, crypto))
  }

  const KNOWN_TRIGGERS := [
    "trg_phone_claims_erasure_wall", "trg_phone_claims_guard_insert",
    "trg_phone_claims_guard_update", "trg_phone_claims_no_delete"]

  predicate AllNext(db: Registry, ids: set<nat>, target: string, crypto: Crypto) {
    forall id <- ids :: Next(db, id, target, crypto).Some?
  }

  /** Every stale claim resolves and can be re-hashed, and no two lines meet under the target key. */
  predicate CanRotate(db: Registry, triggers: seq<string>, target: string, crypto: Crypto) {
    && triggers == KNOWN_TRIGGERS
    && AllNext(db, StaleIds(db.claims, target), target, crypto)
    && Unique(AllRehashed(db, target, crypto).claims)
  }

  /** The 025 wall on switching the reference. */
  predicate WallAllows(claims: Claims, key: string) { StaleIds(claims, key) == {} }

  lemma ClashPersists(db: Registry, some: set<nat>, target: string, crypto: Crypto)
    requires Unique(db.claims) && some <= StaleIds(db.claims, target)
    requires forall id <- some :: Next(db, id, target, crypto).Some?
    requires !Unique(Rehashed(db, some, target, crypto))
    ensures !Unique(Rehashed(db, StaleIds(db.claims, target), target, crypto))
  {
    var table := Rehashed(db, some, target, crypto);
    var i, j :| i in table && j in table && i != j && Clash(table[i], table[j]);
    assert !Clash(db.claims[i], db.claims[j]);
    var all := Rehashed(db, StaleIds(db.claims, target), target, crypto);
    assert Clash(all[i], all[j]);
  }

  /** A step that cannot be taken dooms the rotation, whatever the order of the claims. */
  lemma StepDecides(db: Registry, done: set<nat>, id: nat, target: string, crypto: Crypto)
    requires Unique(db.claims) && id in StaleIds(db.claims, target) && done <= StaleIds(db.claims, target)
    requires AllNext(db, done, target, crypto)
    requires !(Next(db, id, target, crypto).Some? && Unique(Rehashed(db, done + {id}, target, crypto)))
    ensures !CanRotate(db, KNOWN_TRIGGERS, target, crypto)
  {
    if Next(db, id, target, crypto).Some? { ClashPersists(db, done + {id}, target, crypto); }
  }

  /** The table while `todo` remains to be re-hashed: everything else is, and uniqueness holds. */
  ghost predicate Midway(before: Registry, current: Registry, todo: set<nat>, target: string, crypto: Crypto) {
    var stale := StaleIds(before.claims, target);
    && todo <= stale
    && current == before.(claims := Rehashed(before, stale - todo, target, crypto))
    && AllNext(before, stale - todo, target, crypto)
    && Unique(before.claims) && Unique(current.claims)
  }

  lemma MidwayStarts(before: Registry, target: string, crypto: Crypto)
    requires Unique(before.claims)
    ensures Midway(before, before, StaleIds(before.claims, target), target, crypto)
  {
    var stale := StaleIds(before.claims, target);
    assert Rehashed(before, stale - stale, target, crypto) == before.claims;
  }

  lemma MidwayEnds(before: Registry, current: Registry, target: string, crypto: Crypto)
    requires Midway(before, current, {}, target, crypto)
    ensures current == AllRehashed(before, target, crypto)
    ensures CanRotate(before, KNOWN_TRIGGERS, target, crypto)
  {
    var stale := StaleIds(before.claims, target);
    assert stale - {} == stale;
  }

  datatype RotationReport = RotationReport(fromKeyId: string, toKeyId: string, rehashed: nat)

  datatype RotationError =
    | EmptyReference
    | UnexpectedTriggers
    | BrokenClaim(id: nat)
    | TargetKeyMissing
    | UniqueViolation(id: nat)

  class RotationScript {
    var registry: Registry
    var reference: Option<string>
    var triggers: seq<string>
    /** Whether the table's triggers are enabled. */
    var armed: bool

    constructor (registry: Registry, reference: Option<string>, triggers: seq<string>)
      ensures this.registry == registry && this.reference == reference && this.triggers == triggers && armed
    {
      this.registry, this.reference, this.triggers, armed := registry, reference, triggers, true;
    }

    /** An UPDATE of one claim: the content is frozen while the guards are armed. */
    method UpdateClaim(id: nat, hmac: string, key: string) returns (ok: bool)
      requires id in registry.claims && !armed && Unique(registry.claims)
      modifies `registry
      ensures
        var updated := old(registry).claims[id := old(registry).claims[id].(phoneHmac := hmac, hmacKeyId := key)];
        && ok == Unique(updated)
        && registry == if ok then old(registry).(claims := updated) else old(registry)
    {
      var updated := registry.claims[id := registry.claims[id].(phoneHmac := hmac, hmacKeyId := key)];
      ok := Unique(updated);
      if ok { registry := registry.(claims := updated); }
    }

    /** One turn of the loop: resolve the claim, derive under the target key, write. */
    method RehashOne(ghost before: Registry, ghost todo: set<nat>, id: nat, target: string, crypto: Crypto)
      returns (failure: Option<RotationError>)
      requires !armed && Midway(before, registry, todo, target, crypto)
      requires id in todo
      modifies `registry
      ensures failure != Some(UnexpectedTriggers) && failure != Some(EmptyReference)
      ensures failure.Some? ==> !CanRotate(before, KNOWN_TRIGGERS, target, crypto)
      ensures failure.None? ==> Midway(before, registry, todo - {id}, target, crypto)
    {
      var resolution := Resolve(registry, registry, id, true, crypto);
      assert resolution == Resolve(before, before, id, true, crypto);
      if !resolution.Resolved? { return Some(BrokenClaim(id)); }
      var next := crypto.fingerprint(target, resolution.phone);
      if next.None? { return Some(TargetKeyMissing); }
      ghost var done := StaleIds(before.claims, target) - todo;
      assert StaleIds(before.claims, target) - (todo - {id}) == done + {id};
      assert registry.claims[id := Rehash(before.claims[id], next, target)] == Rehashed(before, done + {id}, target, crypto);
      var ok := UpdateClaim(id, next.value, target);
      if !ok {
        StepDecides(before, done, id, target, crypto);
        return Some(UniqueViolation(id));
      }
      return None;
    }

    method RehashAll(target: string, crypto: Crypto) returns (r: Result<nat, RotationError>)
      requires !armed && Unique(registry.claims)
      modifies `registry
      ensures r != Err(UnexpectedTriggers) && r != Err(EmptyReference)
      ensures r.Ok? <==> CanRotate(old(registry), KNOWN_TRIGGERS, target, crypto)
      ensures r.Ok? ==>
                && r.value == |StaleIds(old(registry).claims, target)|
                && registry == AllRehashed(old(registry), target, crypto)
    {
      ghost var before := registry;
      var todo := StaleIds(registry.claims, target);
      var rehashed := 0;
      MidwayStarts(before, target, crypto);
      while todo != {}
        invariant Midway(before, registry, todo, target, crypto)
        invariant rehashed + |todo| == |StaleIds(before.claims, target)|
        decreases todo
      {
        var id :| id in todo;
        var failure := RehashOne(before, todo, id, target, crypto);
        if failure.Some? { return Err(failure.value); }
        rehashed := rehashed + 1;
        todo := todo - {id};
      }
      MidwayEnds(before, registry, target, crypto);
      return Ok(rehashed);
    }

    method Rotate(target: string, crypto: Crypto) returns (r: Result<RotationReport, RotationError>)
      requires Unique(registry.claims) && armed
      modifies `registry, `reference, `armed
      ensures armed && Unique(registry.claims)
      ensures r.Err? ==> registry == old(registry) && reference == old(reference)
      ensures r == Err(EmptyReference) <==> old(reference) == None
      ensures old(reference) == Some(target) ==>
                r == Ok(RotationReport(target, target, 0)) && registry == old(registry) && reference == old(reference)
      ensures old(reference).Some? && old(reference) != Some(target) ==>
                var stale := StaleIds(old(registry).claims, target);
                && (r == Err(UnexpectedTriggers) <==> triggers != KNOWN_TRIGGERS)
                && (r.Ok? <==> CanRotate(old(registry), triggers, target, crypto))
                && (r.Ok? ==>
                      && r.value == RotationReport(old(reference).value, target, |stale|)
                      && registry == AllRehashed(old(registry), target, crypto)
                      && reference == Some(target))
    {
      if reference.None? { return Err(EmptyReference); }
      var current := reference.value;
      if current == target { return Ok(RotationReport(current, target, 0)); }
      if triggers != KNOWN_TRIGGERS { return Err(UnexpectedTriggers); }
      var before := registry;
      armed := false;
      var rehashed := RehashAll(target, crypto);
      if rehashed.Err? {
        registry, armed := before, true;
        return Err(rehashed.error);
      }
      armed := true;
      SecondRunRewritesNothing(before, triggers, target, crypto);
      assert WallAllows(registry.claims, target);
      reference := Some(target);
      return Ok(RotationReport(current, target, rehashed.value));
    }
  }

  // ---------------------------------------------------------------------------
  // What a committed rotation means
  // ---------------------------------------------------------------------------

  /** Every ACTIVE claim is under the target key and means the same phone; the others did not move. */
  lemma RotationPreservesMeaning(db: Registry, triggers: seq<string>, target: string, crypto: Crypto, id: nat)
    requires CanRotate(db, triggers, target, crypto) && id in db.claims
    ensures
      var after := AllRehashed(db, target, crypto);
      && after.claims.Keys == db.claims.Keys
      && Resolve(after, after, id, true, crypto) == Resolve(db, db, id, true, crypto)
      && (IsStale(db.claims[id], target) ==>
            && Resolve(after, after, id, true, crypto).Resolved?
            && after.claims[id].hmacKeyId == target)
      && (!IsStale(db.claims[id], target) ==> after.claims[id] == db.claims[id])
      && (after.claims[id].phoneEncrypted, after.claims[id].person, after.claims[id].status)
         == (db.claims[id].phoneEncrypted, db.claims[id].person, db.claims[id].status)
  {
    if IsStale(db.claims[id], target) {
      assert id in StaleIds(db.claims, target);
      assert Next(db, id, target, crypto).Some?;
    }
  }

  /** A second run finds nothing to rewrite. */
  lemma SecondRunRewritesNothing(db: Registry, triggers: seq<string>, target: string, crypto: Crypto)
    requires CanRotate(db, triggers, target, crypto)
    ensures StaleIds(AllRehashed(db, target, crypto).claims, target) == {}
  {
    var after := AllRehashed(db, target, crypto).claims;
    forall id <- after ensures !IsStale(after[id], target) {
      RotationPreservesMeaning(db, triggers, target, crypto, id);
    }
  }

  // ---------------------------------------------------------------------------
  // The life of the registry: one line, one holder, across every rotation
  // ---------------------------------------------------------------------------

  /** Fingerprints and encryption as such; a keyring holds some of the keys. */
  datatype Vault = Vault(hmac: (string, string) -> string, encrypt: (string, string) -> string, decrypt: string -> Option<string>)

  function Under(v: Vault, held: set<string>): Crypto {
    Crypto(v.decrypt, (k, phone) => if k in held then Some(v.hmac(k, phone)) else None)
  }

  ghost predicate Decrypts(v: Vault) {
    forall iv, phone :: v.decrypt(v.encrypt(iv, phone)) == Some(phone)
  }

  ghost predicate Injective(v: Vault) {
    forall k, a, b :: v.hmac(k, a) == v.hmac(k, b) ==> a == b
  }

  datatype Db = Db(registry: Registry, reference: string)

  datatype Act =
    | Declare(id: nat, person: nat, phone: string, iv: string, active: string, held: set<string>)
    | Activate(id: nat)
    | Revoke(id: nat)
    | EraseHolder(person: nat)
    | Switch(key: string)
    | RunRotation(target: string, triggers: seq<string>, keys: set<string>)

  function WithStatus(db: Db, id: nat, status: ClaimStatus): Db
    requires id in db.registry.claims
  {
    db.(registry := db.registry.(claims := db.registry.claims[id := db.registry.claims[id].(status := status)]))
  }

  function RevokeAllOf(claims: Claims, person: nat): Claims {
    map id <- claims :: if claims[id].person == person then claims[id].(status := REVOKED) else claims[id]
  }

  /** One committed transaction; a refused one changes nothing. */
  function Do(db: Db, act: Act, v: Vault): Db {
    match act
    case Declare(id, person, phone, iv, active, held) =>
      var columns := BuildPhoneColumns(Writer(active, "", v.encrypt), Under(v, held), phone, iv);
      if id in db.registry.claims || person in db.registry.erased || columns.None? || active != db.reference then db
      else
        var row := Claim(person, columns.value.phoneHmac, active, columns.value.phoneEncrypted, PENDING);
        db.(registry := db.registry.(claims := db.registry.claims[id := row]))
    case Activate(id) =>
      if id in db.registry.claims && db.registry.claims[id].status == PENDING
         && db.registry.claims[id].hmacKeyId == db.reference
         && Unique(WithStatus(db, id, ACTIVE).registry.claims)
      then WithStatus(db, id, ACTIVE) else db
    case Revoke(id) =>
      if id in db.registry.claims then WithStatus(db, id, REVOKED) else db
    case EraseHolder(person) =>
      db.(registry := Registry(RevokeAllOf(db.registry.claims, person), db.registry.erased + {person}))
    case Switch(key) =>
      if WallAllows(db.registry.claims, key) then db.(reference := key) else db
    case RunRotation(target, triggers, keys) =>
      if db.reference != target && CanRotate(db.registry, triggers, target, Under(v, keys))
      then Db(AllRehashed(db.registry, target, Under(v, keys)), target)
      else db
  }

  /** Every other claim is as it was. */
  ghost predicate OthersStand(db: Db, after: Db, id: nat) {
    && after.registry.claims.Keys - {id} == db.registry.claims.Keys - {id}
    && forall c <- db.registry.claims :: c != id ==> c in after.registry.claims && after.registry.claims[c] == db.registry.claims[c]
  }

  /**
    What each act leaves of one claim: declared under the reference only, activated only from
    PENDING under the reference and when no ACTIVE claim has its line, revoked from any state.
   */
  lemma ActsOnOneClaim(db: Db, act: Act, v: Vault)
    requires act.Declare? || act.Activate? || act.Revoke?
    ensures
      var after := Do(db, act, v);
      var claims := db.registry.claims;
      && OthersStand(db, after, act.id) && after.reference == db.reference && after.registry.erased == db.registry.erased
      && match act
         case Declare(id, person, phone, iv, active, held) =>
           if id !in claims && person !in db.registry.erased && active in held && active == db.reference then
             && id in after.registry.claims
             && after.registry.claims[id] == Claim(person, v.hmac(active, phone), active, v.encrypt(iv, phone), PENDING)
           else after == db
         case Activate(id) =>
           if id in claims && claims[id].status == PENDING && claims[id].hmacKeyId == db.reference
              && Unique(claims[id := claims[id].(status := ACTIVE)])
           then id in after.registry.claims && after.registry.claims[id] == claims[id].(status := ACTIVE)
           else after == db
         case Revoke(id) =>
           if id in claims then id in after.registry.claims && after.registry.claims[id] == claims[id].(status := REVOKED)
           else after == db
         case _ => true
  {
  }

  /** An erasure revokes every claim of its person, and no other; a switch needs every ACTIVE claim under its key. */
  lemma ActsOnTheRegistry(db: Db, act: Act, v: Vault)
    requires act.EraseHolder? || act.Switch?
    ensures
      var after := Do(db, act, v);
      var claims := db.registry.claims;
      && after.registry.claims.Keys == claims.Keys
      && (act.EraseHolder? ==>
            && after.reference == db.reference && after.registry.erased == db.registry.erased + {act.person}
            && forall c <- claims :: after.registry.claims[c] ==
                 if claims[c].person == act.person then claims[c].(status := REVOKED) else claims[c])
      && (act.Switch? ==>
            after == if forall c <- claims :: claims[c].status == ACTIVE ==> claims[c].hmacKeyId == act.key
                     then Db(db.registry, act.key) else db)
  {
    if act.Switch? {
      forall c <- db.registry.claims
        ensures c in StaleIds(db.registry.claims, act.key) <==>
                  !(db.registry.claims[c].status == ACTIVE ==> db.registry.claims[c].hmacKeyId == act.key) {}
    }
  }

  /** The claim's two columns speak of one phone. */
  predicate Honest(c: Claim, v: Vault) {
    v.decrypt(c.phoneEncrypted).Some? && c.phoneHmac == v.hmac(c.hmacKeyId, v.decrypt(c.phoneEncrypted).value)
  }

  ghost predicate Sound(db: Db, v: Vault) {
    && (forall id <- db.registry.claims :: RowSound(db, db.registry.claims[id], v))
    && Unique(db.registry.claims)
  }

  ghost predicate RowSound(db: Db, c: Claim, v: Vault) {
    && Honest(c, v)
    && (c.status == ACTIVE ==> c.hmacKeyId == db.reference)
    && (c.person in db.registry.erased ==> c.status == REVOKED)
  }

  lemma DoKeepsSound(db: Db, act: Act, v: Vault)
    requires Sound(db, v) && Decrypts(v)
    ensures Sound(Do(db, act, v), v)
  {
    match act
    case RunRotation(target, triggers, keys) => RotationKeepsSound(db, target, triggers, keys, v);
    case Declare(_, _, phone, iv, _, _) => assert v.decrypt(v.encrypt(iv, phone)) == Some(phone);
    case Switch(key) =>
      if WallAllows(db.registry.claims, key) {
        forall id <- db.registry.claims ensures RowSound(Do(db, act, v), db.registry.claims[id], v) {
          assert id !in StaleIds(db.registry.claims, key);
        }
      }
    case _ =>
  }

  lemma RotationKeepsSound(db: Db, target: string, triggers: seq<string>, keys: set<string>, v: Vault)
    requires Sound(db, v)
    ensures Sound(Do(db, RunRotation(target, triggers, keys), v), v)
  {
    var crypto := Under(v, keys);
    if db.reference != target && CanRotate(db.registry, triggers, target, crypto) {
      var after := Do(db, RunRotation(target, triggers, keys), v);
      forall id <- after.registry.claims ensures RowSound(after, after.registry.claims[id], v) {
        RotationPreservesMeaning(db.registry, triggers, target, crypto, id);
      }
    }
  }

  function Life(db: Db, acts: seq<Act>, v: Vault): Db {
    if acts == [] then db else Do(Life(db, acts[..|acts| - 1], v), acts[|acts| - 1], v)
  }

  lemma {:induction false} LifeKeepsSound(db: Db, acts: seq<Act>, v: Vault)
    requires Sound(db, v) && Decrypts(v)
    ensures Sound(Life(db, acts, v), v)
  {
    if acts != [] {
      LifeKeepsSound(db, acts[..|acts| - 1], v);
      DoKeepsSound(Life(db, acts[..|acts| - 1], v), acts[|acts| - 1], v);
    }
  }

  /**
    Whatever is declared, activated, revoked, erased, switched by hand or rotated, with whatever
    keyrings: two ACTIVE claims never hold the same line.
   */
  lemma OneLineOneHolder(acts: seq<Act>, v: Vault, reference: string, i: nat, j: nat)
    requires Decrypts(v)
    requires
      var claims := Life(Db(Registry(map[], {}), reference), acts, v).registry.claims;
      i in claims && j in claims && i != j && claims[i].status == ACTIVE && claims[j].status == ACTIVE
    ensures
      var claims := Life(Db(Registry(map[], {}), reference), acts, v).registry.claims;
      v.decrypt(claims[i].phoneEncrypted) != v.decrypt(claims[j].phoneEncrypted)
  {
    LifeKeepsSound(Db(Registry(map[], {}), reference), acts, v);
    var claims := Life(Db(Registry(map[], {}), reference), acts, v).registry.claims;
    assert !Clash(claims[i], claims[j]);
  }

  /** In a sound registry the rotation succeeds exactly when the keyring holds both keys it needs. */
  lemma RotationNeedsBothKeys(db: Db, triggers: seq<string>, target: string, keys: set<string>, v: Vault)
    requires Sound(db, v) && Injective(v) && db.reference != target
    ensures CanRotate(db.registry, triggers, target, Under(v, keys)) <==>
              && triggers == KNOWN_TRIGGERS
              && (StaleIds(db.registry.claims, target) == {} || (target in keys && db.reference in keys))
  {
    var crypto := Under(v, keys);
    var stale := StaleIds(db.registry.claims, target);
    forall id <- stale
      ensures Next(db.registry, id, target, crypto).Some? <==> target in keys && db.reference in keys
      ensures Next(db.registry, id, target, crypto).Some? ==>
                Next(db.registry, id, target, crypto).value
                == v.hmac(target, v.decrypt(db.registry.claims[id].phoneEncrypted).value)
    {
      assert RowSound(db, db.registry.claims[id], v);
    }
    if target in keys && db.reference in keys { NoLinesMeet(db, target, crypto, v); }
    if stale == {} { assert Rehashed(db.registry, stale, target, crypto) == db.registry.claims; }
  }

  lemma NoLinesMeet(db: Db, target: string, crypto: Crypto, v: Vault)
    requires Sound(db, v) && Injective(v) && db.reference != target
    requires forall id <- StaleIds(db.registry.claims, target) ::
               Next(db.registry, id, target, crypto) == Some(v.hmac(target, v.decrypt(db.registry.claims[id].phoneEncrypted).value))
    ensures Unique(Rehashed(db.registry, StaleIds(db.registry.claims, target), target, crypto))
  {
    var claims := db.registry.claims;
    var stale := StaleIds(claims, target);
    var after := Rehashed(db.registry, stale, target, crypto);
    forall i, j | i in after && j in after && i != j && after[i].status == ACTIVE && after[j].status == ACTIVE
      ensures !Clash(after[i], after[j])
    {
      assert RowSound(db, claims[i], v) && RowSound(db, claims[j], v);
      assert i in stale && j in stale;
      assert !Clash(claims[i], claims[j]);
    }
  }
}
