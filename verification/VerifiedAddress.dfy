/**
  The one place where a stored phone number is read back in clear
  (src/phone/verified-address.ts), and the one place where its columns are built
  (src/phone/phone-columns.ts).

  Decryption and keyed fingerprints are parameters.  The two reads of a resolution are separate
  statements, so each sees the claims as they are when it runs.
 */
module VerifiedAddresses {
  import opened Characters
  import opened Wrappers

  datatype ClaimStatus = PENDING | ACTIVE | REVOKED

  datatype Claim = Claim(
    person: nat,
    phoneHmac: string,
    hmacKeyId: string,
    phoneEncrypted: string,
    status: ClaimStatus)

  /**
    `decrypt` is None when the key is missing or the token does not authenticate; `fingerprint`
    is None when the named key is not in the keyring.
   */
  datatype Crypto = Crypto(
    decrypt: string -> Option<string>,
    fingerprint: (string, string) -> Option<string>)

  /** The claims, and the persons whose erasure is complete. */
  datatype Registry = Registry(claims: map<nat, Claim>, erased: set<nat>)

  datatype Resolution = Resolved(phone: string) | NoAddress | IntegrityViolation

  /** First read: the fingerprint row, of an ACTIVE claim only when that is required. */
  function FingerprintRow(db: Registry, id: nat, requireActive: bool): Option<Claim> {
    if id in db.claims && (requireActive ==> db.claims[id].status == ACTIVE) then Some(db.claims[id]) else None
  }

  /** Second read: the encrypted value, which the database withholds from an erased person. */
  function EncryptedValue(db: Registry, id: nat, requireActive: bool): Option<string> {
    if id in db.claims && (requireActive ==> db.claims[id].status == ACTIVE) && db.claims[id].person !in db.erased
    then Some(db.claims[id].phoneEncrypted) else None
  }

  /** Decrypt, re-derive under the claim's own key, compare. */
  function Conclude(row: Option<Claim>, token: Option<string>, crypto: Crypto): Resolution {
    if row.None? || token.None? then NoAddress
    else
      match crypto.decrypt(token.value)
      case None => IntegrityViolation
      case Some(phone) =>
        if crypto.fingerprint(row.value.hmacKeyId, phone) == Some(row.value.phoneHmac) then Resolved(phone)
        else IntegrityViolation
  }

  function Resolve(first: Registry, second: Registry, id: nat, requireActive: bool, crypto: Crypto): Resolution {
    Conclude(FingerprintRow(first, id, requireActive), EncryptedValue(second, id, requireActive), crypto)
  }

  /** A phone comes out exactly when both reads and the fingerprint agree on it. */
  lemma ResolvedIff(first: Registry, second: Registry, id: nat, crypto: Crypto, phone: string)
    ensures
      Resolve(first, second, id, true, crypto) == Resolved(phone) <==>
      && id in first.claims && first.claims[id].status == ACTIVE
      && id in second.claims && second.claims[id].status == ACTIVE
      && second.claims[id].person !in second.erased
      && crypto.decrypt(second.claims[id].phoneEncrypted) == Some(phone)
      && crypto.fingerprint(first.claims[id].hmacKeyId, phone) == Some(first.claims[id].phoneHmac)
  {
  }

  datatype PhoneColumns = PhoneColumns(phoneHmac: string, hmacKeyId: string, phoneEncrypted: string, encKeyId: string)

  /** The active keys, and encryption under a drawn IV. */
  datatype Writer = Writer(activeHmac: string, activeEnc: string, encrypt: (string, string) -> string)

  function BuildPhoneColumns(w: Writer, crypto: Crypto, phone: string, iv: string): Option<PhoneColumns> {
    match crypto.fingerprint(w.activeHmac, phone)
    case None => None
    case Some(value) => Some(PhoneColumns(value, w.activeHmac, w.encrypt(iv, phone), w.activeEnc))
  }

  /** Columns born together resolve to the phone they were built from, and to no other. */
  lemma BuiltColumnsResolve(w: Writer, crypto: Crypto, phone: string, iv: string, db: Registry, id: nat)
    requires crypto.decrypt(w.encrypt(iv, phone)) == Some(phone)
    requires BuildPhoneColumns(w, crypto, phone, iv).Some? && id in db.claims
    requires
      var c := BuildPhoneColumns(w, crypto, phone, iv).value;
      db.claims[id].phoneHmac == c.phoneHmac && db.claims[id].hmacKeyId == c.hmacKeyId
      && db.claims[id].phoneEncrypted == c.phoneEncrypted
    ensures Resolve(db, db, id, true, crypto) ==
            if db.claims[id].status == ACTIVE && db.claims[id].person !in db.erased then Resolved(phone) else NoAddress
  {
  }

  /** Fingerprints tell phones apart, under every key. */
  ghost predicate TellsApart(crypto: Crypto) {
    forall k, x, y | crypto.fingerprint(k, x).Some? :: crypto.fingerprint(k, x) == crypto.fingerprint(k, y) ==> x == y
  }

  /** Crossed columns (the fingerprint of one phone, the value of another) are never served. */
  lemma CrossedColumnsAreRefused(db: Registry, id: nat, a: string, b: string, crypto: Crypto)
    requires id in db.claims && crypto.decrypt(db.claims[id].phoneEncrypted) == Some(b)
    requires crypto.fingerprint(db.claims[id].hmacKeyId, a) == Some(db.claims[id].phoneHmac)
    requires a != b && TellsApart(crypto)
    ensures !Resolve(db, db, id, true, crypto).Resolved?
  {
    assert crypto.fingerprint(db.claims[id].hmacKeyId, a) != crypto.fingerprint(db.claims[id].hmacKeyId, b);
  }

  /** A living claim with the fingerprint columns built for `a` and the value built for `b` resolves exactly when they are one phone. */
  lemma ColumnsResolveIff(w: Writer, crypto: Crypto, a: string, b: string, iv: string, db: Registry, id: nat)
    requires crypto.decrypt(w.encrypt(iv, b)) == Some(b) && TellsApart(crypto)
    requires BuildPhoneColumns(w, crypto, a, iv).Some? && BuildPhoneColumns(w, crypto, b, iv).Some? && id in db.claims
    requires db.claims[id].status == ACTIVE && db.claims[id].person !in db.erased
    requires
      var mine, theirs := BuildPhoneColumns(w, crypto, a, iv).value, BuildPhoneColumns(w, crypto, b, iv).value;
      (db.claims[id].phoneHmac, db.claims[id].hmacKeyId) == (mine.phoneHmac, mine.hmacKeyId)
      && db.claims[id].phoneEncrypted == theirs.phoneEncrypted
    ensures a == b ==> Resolve(db, db, id, true, crypto) == Resolved(b)
    ensures a != b ==> !Resolve(db, db, id, true, crypto).Resolved?
  {
    if a == b { BuiltColumnsResolve(w, crypto, b, iv, db, id); } else { CrossedColumnsAreRefused(db, id, a, b, crypto); }
  }

  // ---------------------------------------------------------------------------
  // Minimal E.164 normalisation
  // ---------------------------------------------------------------------------

  predicate Separator(c: char) {
    IsSpace(c) || c in {'(', ')', '.', '-'}
  }

  function Strip(raw: string): string {
    if raw == "" then "" else (if Separator(raw[0]) then "" else [raw[0]]) + Strip(raw[1..])
  }

  predicate E164(s: string) {
    && 9 <= |s| <= 16 && s[0] == '+' && '1' <= s[1] <= '9'
    && forall i :: 2 <= i < |s| ==> IsDigit(s[i])
  }

  function NormalizePhone(raw: string): Option<string> {
    var trimmed := Strip(raw);
    if E164(trimmed) then Some(trimmed) else None
  }

  lemma {:induction false} StripKeepsClean(s: string)
    requires forall i :: 0 <= i < |s| ==> !Separator(s[i])
    ensures Strip(s) == s
  {
    if s != "" { StripKeepsClean(s[1..]); }
  }

  /** Every accepted spelling of a line is one normal form, and the normal form is its own. */
  lemma NormalFormIsFixed(raw: string)
    requires NormalizePhone(raw).Some?
    ensures NormalizePhone(NormalizePhone(raw).value) == NormalizePhone(raw)
  {
    StripKeepsClean(Strip(raw));
  }

  lemma {:induction false} StripConcat(a: string, b: string)
    ensures Strip(a + b) == Strip(a) + Strip(b)
  {
    if a == "" {
      assert a + b == b;
    } else {
      assert (a + b)[1..] == a[1..] + b;
      StripConcat(a[1..], b);
    }
  }

  /** What is kept is what is not a separator. */
  lemma {:induction false} StripKeeps(raw: string)
    ensures forall c :: c in Strip(raw) <==> c in raw && !Separator(c)
    ensures forall i :: 0 <= i < |Strip(raw)| ==> !Separator(Strip(raw)[i])
  {
    if raw != "" {
      StripKeeps(raw[1..]);
      assert raw == [raw[0]] + raw[1..];
    }
  }

  /** Separators can be put anywhere: the normal form is the same. */
  lemma SpellingsAgree(a: string, c: char, b: string)
    requires Separator(c)
    ensures NormalizePhone(a + [c] + b) == NormalizePhone(a + b)
  {
    StripConcat(a + [c], b);
    StripConcat(a, [c]);
    StripConcat(a, b);
    assert [c][1..] == "";
    assert Strip([c]) == "";
    assert Strip(a) + "" == Strip(a);
    assert Strip(a + [c] + b) == Strip(a + b);
  }

  /** Written without separators, a phone is accepted as it stands, exactly when it is a plus, a digit from 1, and 7 to 14 more. */
  lemma PlainPhoneIff(s: string)
    requires forall i :: 0 <= i < |s| ==> !Separator(s[i])
    ensures NormalizePhone(s) ==
            if 9 <= |s| <= 16 && s[0] == '+' && '1' <= s[1] <= '9' && (forall i :: 2 <= i < |s| ==> IsDigit(s[i]))
            then Some(s) else None
  {
    StripKeepsClean(s);
  }
}
