/**
  The civil identity of a person (src/crypto/person-identity.ts): validated, sealed under a key
  derived from the keyring and the person's erasure salt, and read back only when the stored
  year of birth tells the same story.

  JSON and HKDF (section 2 of RFC 5869) are parameters.
 */
module CivilIdentities {
  import opened Characters
  import opened Wrappers
  import opened Keyrings
  import opened SealedTokens
  import opened BirthDates
  import opened Calendars
  import opened Digits

  datatype Identity = Identity(nameComponents: seq<string>, displayName: string, birthDate: string)

  /** What a parsed blob holds under each name; None when absent or of another type. */
  datatype Parsed =
    | NotJson
    | NotAnObject
    | Blob(version: Option<int>, names: Option<seq<Option<string>>>, display: Option<string>, birth: Option<string>)

  datatype Codec = Codec(
    cipher: Cipher,
    derive: (Bytes, Bytes) -> Bytes,
    stringify: Identity -> string,
    parse: string -> Parsed)

  ghost predicate Faithful(codec: Codec) {
    && Sealing(codec.cipher)
    && forall i: Identity ::
         codec.parse(codec.stringify(i)) ==
         Blob(Some(1), Some(Somes(i.nameComponents)), Some(i.displayName), Some(i.birthDate))
  }

  function Somes(s: seq<string>): seq<Option<string>> { seq(|s|, i requires 0 <= i < |s| => Some(s[i])) }

  /** The keyring whose keys are derived with the person's salt; identifiers are the master's. */
  function Derived(master: Keyring, salt: Bytes, codec: Codec): Keyring {
    Keyring(master.activeKeyId, map k <- master.keys :: codec.derive(master.keys[k], salt))
  }

  /** A derived key depends on the master's key of that identifier and on the salt, and there is one for each. */
  lemma DerivedKey(master: Keyring, salt: Bytes, codec: Codec, keyId: string)
    ensures
      Derived(master, salt, codec).Get(keyId) ==
      match master.Get(keyId)
      case None => None
      case Some(key) => Some(codec.derive(key, salt))
  {
  }

  /** trim().length < 1 */
  predicate Blank(s: string) { forall i :: 0 <= i < |s| ==> IsSpace(s[i]) }

  datatype IdentityError =
    | WrongSaltLength
    | BadComponents
    | BadDisplayName
    | BadBirthDate(refusal: Refusal)

  predicate GoodText(s: string) { !Blank(s) && |s| <= 80 }

  function Validate(i: Identity, today: int, overflow: Overflow): Option<IdentityError> {
    if !(1 <= |i.nameComponents| <= 8) || exists c <- i.nameComponents :: !GoodText(c) then Some(BadComponents)
    else if !GoodText(i.displayName) then Some(BadDisplayName)
    else
      match CheckBirthDate(i.birthDate, today, overflow)
      case Some(refusal) => Some(BadBirthDate(refusal))
      case None => None
  }

  function BirthYearOf(birthDate: string): int
    requires DateShape(birthDate)
  {
    Num(birthDate[..4])
  }

  datatype Encrypted = Encrypted(token: string, encKeyId: string, birthYear: int)

  /** Err(None) where the keyring has no active key. */
  function SealIdentity(keyring: Keyring, salt: Bytes, i: Identity, iv: Bytes, codec: Codec): Result<Encrypted, Option<IdentityError>>
    requires DateShape(i.birthDate)
  {
    match Encrypt(Derived(keyring, salt, codec), codec.stringify(i), iv, codec.cipher)
    case None => Err(None)
    case Some(token) => Ok(Encrypted(token, keyring.activeKeyId, BirthYearOf(i.birthDate)))
  }

  function EncryptCivilIdentity(keyring: Keyring, salt: Bytes, i: Identity, iv: Bytes, today: int, overflow: Overflow, codec: Codec)
    : Result<Encrypted, Option<IdentityError>>
  {
    if |salt| != 32 then Err(Some(WrongSaltLength))
    else
      var invalid := Validate(i, today, overflow);
      if invalid.Some? then Err(invalid) else SealIdentity(keyring, salt, i, iv, codec)
  }

  datatype ReadError = ReadWrongSaltLength | IntegrityFailure

  predicate ShapeOk(names: Option<seq<Option<string>>>, display: Option<string>, birth: Option<string>) {
    && names.Some? && |names.value| >= 1 && (forall n <- names.value :: n.Some? && |n.value| >= 1)
    && display.Some? && |display.value| >= 1
    && birth.Some? && DateShape(birth.value)
  }

  function Texts(s: seq<Option<string>>): seq<string>
    requires forall n <- s :: n.Some?
  {
    seq(|s|, i requires 0 <= i < |s| => s[i].value)
  }

  function DecryptCivilIdentity(keyring: Keyring, salt: Bytes, token: string, expectedBirthYear: int, codec: Codec)
    : Result<Identity, ReadError>
  {
    if |salt| != 32 then Err(ReadWrongSaltLength)
    else
      match Decrypt(Derived(keyring, salt, codec), token, codec.cipher)
      case Err(_) => Err(IntegrityFailure)
      case Ok(plaintext) =>
        var parsed := codec.parse(plaintext);
        if !parsed.Blob? || parsed.version != Some(1) || !ShapeOk(parsed.names, parsed.display, parsed.birth)
        then Err(IntegrityFailure)
        else if BirthYearOf(parsed.birth.value) != expectedBirthYear then Err(IntegrityFailure)
        else Ok(Identity(Texts(parsed.names.value), parsed.display.value, parsed.birth.value))
  }

  lemma SomesBack(s: seq<string>)
    requires forall c <- s :: |c| >= 1
    ensures forall n <- Somes(s) :: n.Some? && |n.value| >= 1
    ensures Texts(Somes(s)) == s
  {
    forall n <- Somes(s) ensures n.Some? && |n.value| >= 1 {
      var i :| 0 <= i < |s| && Somes(s)[i] == n;
      assert s[i] in s;
    }
  }

  lemma AcceptedShape(s: string, today: int, overflow: Overflow)
    requires CheckBirthDate(s, today, overflow).None?
    ensures DateShape(s) && BirthYearOf(s) >= 1900
  {
  }

  /** A validated identity has the shape a reader asks for, and a year of birth the base accepts. */
  lemma ValidHasShape(i: Identity, today: int, overflow: Overflow)
    requires Validate(i, today, overflow).None?
    ensures ShapeOk(Some(Somes(i.nameComponents)), Some(i.displayName), Some(i.birthDate))
    ensures Texts(Somes(i.nameComponents)) == i.nameComponents
    ensures BirthYearOf(i.birthDate) >= 1900
  {
    assert forall c <- i.nameComponents :: |c| >= 1 by { assert forall c <- i.nameComponents :: GoodText(c); }
    SomesBack(i.nameComponents);
    assert |Somes(i.nameComponents)| >= 1;
    assert DateShape(i.birthDate) && BirthYearOf(i.birthDate) >= 1900 by { AcceptedShape(i.birthDate, today, overflow); }
  }

  /**
    Every valid identity is read back as itself through every later keyring that keeps the
    writing key, its token names the keyring's key, and its stored year is its own: exactly when
    the key identifier has no dot.  With one, what was written can never be read.
   */
  lemma IdentityRoundTripIff(keyring: Keyring, later: Keyring, salt: Bytes, i: Identity, iv: Bytes, today: int,
                             overflow: Overflow, codec: Codec)
    requires Faithful(codec) && |iv| == 12
    requires EncryptCivilIdentity(keyring, salt, i, iv, today, overflow, codec).Ok?
    requires later.Get(keyring.activeKeyId) == keyring.Active()
    ensures
      var e := EncryptCivilIdentity(keyring, salt, i, iv, today, overflow, codec).value;
      && (DecryptCivilIdentity(later, salt, e.token, e.birthYear, codec) == Ok(i) <==> DotFree(keyring.activeKeyId))
      && (DotFree(keyring.activeKeyId) ==> KeyIdOf(e.token) == Some(e.encKeyId))
      && (!DotFree(keyring.activeKeyId) ==> forall k, year ::
            DecryptCivilIdentity(k, salt, e.token, year, codec) == Err(IntegrityFailure))
      && e.birthYear >= 1900
  {
    var mine, theirs := Derived(keyring, salt, codec), Derived(later, salt, codec);
    ValidHasShape(i, today, overflow);
    TokenRoundTripIff(mine, theirs, codec.stringify(i), iv, codec.cipher);
    if !DotFree(keyring.activeKeyId) {
      DottedToken(mine.activeKeyId, mine.Active().value, codec.stringify(i), iv, codec.cipher);
    }
  }

  /** An identity whose year is not the stored one is never served, whatever the blob and the keys. */
  lemma ServedYearIsStored(keyring: Keyring, salt: Bytes, token: string, expectedBirthYear: int, codec: Codec)
    requires DecryptCivilIdentity(keyring, salt, token, expectedBirthYear, codec).Ok?
    ensures
      var i := DecryptCivilIdentity(keyring, salt, token, expectedBirthYear, codec).value;
      && DateShape(i.birthDate) && Num(i.birthDate[..4]) == expectedBirthYear
      && KeyIdOf(token).Some? && keyring.Get(KeyIdOf(token).value).Some?
      && i.nameComponents != [] && i.displayName != ""
  {
  }

  /** Distinct salts derive distinct keys. */
  ghost predicate SaltMatters(codec: Codec) {
    forall m, m', s, s' :: codec.derive(m, s) == codec.derive(m', s') ==> s == s'
  }

  /** Erasure by salt: under any other salt the blob is never served again, whatever the keyring. */
  lemma DestroyedSaltDestroysIdentity(keyring: Keyring, later: Keyring, salt: Bytes, drawn: Bytes, i: Identity, iv: Bytes,
                                      today: int, overflow: Overflow, codec: Codec, year: int)
    requires Faithful(codec) && Authentic(codec.cipher) && SaltMatters(codec) && |iv| == 12
    requires EncryptCivilIdentity(keyring, salt, i, iv, today, overflow, codec).Ok? && drawn != salt
    ensures
      var e := EncryptCivilIdentity(keyring, salt, i, iv, today, overflow, codec).value;
      DecryptCivilIdentity(later, drawn, e.token, year, codec).Err?
  {
    var mine, theirs := Derived(keyring, salt, codec), Derived(later, drawn, codec);
    DerivedKey(keyring, salt, codec, keyring.activeKeyId);
    DerivedKey(later, drawn, codec, keyring.activeKeyId);
    assert theirs.Get(mine.activeKeyId) != mine.Active();
    ReplacedKeyOpensNothing(mine, theirs, codec.stringify(i), iv, codec.cipher);
  }

  /** A text with something to read in it, of 80 characters at most. */
  predicate Legible(s: string) { |s| <= 80 && exists i :: 0 <= i < |s| && !IsSpace(s[i]) }

  /** An identity is valid exactly with one to eight legible names, a legible display name, and a real date of birth from 1900 to today. */
  lemma ValidIff(i: Identity, today: int, overflow: Overflow)
    requires FourDigitYear(CivilOf(today))
    ensures Validate(i, today, overflow).None? <==>
              && 1 <= |i.nameComponents| <= 8 && (forall c <- i.nameComponents :: Legible(c))
              && Legible(i.displayName)
              && exists c: Civil :: DateOf(c, i.birthDate, today)
  {
    assert CheckBirthDate(i.birthDate, today, overflow).None? <==> exists c: Civil :: DateOf(c, i.birthDate, today) by {
      BirthDateAcceptedIff(i.birthDate, today, overflow);
    }
    NamesLegibleIff(i.nameComponents);
    LegibleIff(i.displayName);
    NamesAreCounted(i, today, overflow);
    ValidParts(i, today, overflow);
  }

  /** No identity has fewer names than one, nor more than eight. */
  lemma NamesAreCounted(i: Identity, today: int, overflow: Overflow)
    ensures !(1 <= |i.nameComponents| <= 8) ==> Validate(i, today, overflow) == Some(BadComponents)
    ensures Validate(i, today, overflow).None? ==> 1 <= |i.nameComponents| <= 8
  {
  }

  lemma NamesLegibleIff(names: seq<string>)
    ensures (forall c <- names :: GoodText(c)) <==> (forall c <- names :: Legible(c))
  {
    forall c <- names ensures GoodText(c) <==> Legible(c) { LegibleIff(c); }
  }

  lemma ValidParts(i: Identity, today: int, overflow: Overflow)
    ensures Validate(i, today, overflow).None? <==>
              && 1 <= |i.nameComponents| <= 8 && (forall c <- i.nameComponents :: GoodText(c)) && GoodText(i.displayName)
              && CheckBirthDate(i.birthDate, today, overflow).None?
  {
  }

  lemma LegibleIff(s: string)
    ensures GoodText(s) <==> Legible(s)
  {
  }

  /** The year of a date of birth is the year of its day. */
  lemma YearOfDate(c: Civil)
    requires RealDay(c) && FourDigitYear(c)
    ensures DateShape(Iso(c)) && BirthYearOf(Iso(c)) == c.year
  {
    IsoShape(c);
  }

  lemma SealNamesItsKey(keyring: Keyring, salt: Bytes, i: Identity, iv: Bytes, codec: Codec)
    requires DateShape(i.birthDate) && SealIdentity(keyring, salt, i, iv, codec).Ok?
    ensures SealIdentity(keyring, salt, i, iv, codec).value.encKeyId == keyring.activeKeyId
  {
  }

  /** A written identity names the key it was written under, with a salt of its own length. */
  lemma WrittenUnderActiveKey(keyring: Keyring, salt: Bytes, i: Identity, iv: Bytes, today: int, overflow: Overflow, codec: Codec)
    requires EncryptCivilIdentity(keyring, salt, i, iv, today, overflow, codec).Ok?
    ensures EncryptCivilIdentity(keyring, salt, i, iv, today, overflow, codec).value.encKeyId == keyring.activeKeyId
    ensures |salt| == 32 && Validate(i, today, overflow).None? && DateShape(i.birthDate)
    ensures EncryptCivilIdentity(keyring, salt, i, iv, today, overflow, codec).value.birthYear == BirthYearOf(i.birthDate)
  {
    SealNamesItsKey(keyring, salt, i, iv, codec);
  }

  /** What is served is what the blob holds: ours, of version 1, and whole. */
  lemma ServedIsTheBlob(keyring: Keyring, salt: Bytes, token: string, expectedBirthYear: int, codec: Codec) returns (text: string)
    requires DecryptCivilIdentity(keyring, salt, token, expectedBirthYear, codec).Ok?
    ensures Decrypt(Derived(keyring, salt, codec), token, codec.cipher) == Ok(text)
    ensures
      var i := DecryptCivilIdentity(keyring, salt, token, expectedBirthYear, codec).value;
      codec.parse(text) == Blob(Some(1), Some(Somes(i.nameComponents)), Some(i.displayName), Some(i.birthDate))
  {
    text := Decrypt(Derived(keyring, salt, codec), token, codec.cipher).value;
    TextsBack(codec.parse(text).names.value);
  }

  lemma TextsBack(s: seq<Option<string>>)
    requires forall n <- s :: n.Some?
    ensures Somes(Texts(s)) == s
  {
    forall k | 0 <= k < |s| ensures Somes(Texts(s))[k] == s[k] { assert s[k] in s; }
  }

  /** The year stored in clear is the year of the real day the identity was born on. */
  lemma StoredYearIsOfBirth(keyring: Keyring, salt: Bytes, i: Identity, iv: Bytes, today: int, overflow: Overflow, codec: Codec)
    returns (born: Civil)
    requires FourDigitYear(CivilOf(today)) && EncryptCivilIdentity(keyring, salt, i, iv, today, overflow, codec).Ok?
    ensures DateOf(born, i.birthDate, today)
    ensures EncryptCivilIdentity(keyring, salt, i, iv, today, overflow, codec).value.birthYear == born.year
    ensures EncryptCivilIdentity(keyring, salt, i, iv, today, overflow, codec).value.encKeyId == keyring.activeKeyId
  {
    WrittenUnderActiveKey(keyring, salt, i, iv, today, overflow, codec);
    ValidIff(i, today, overflow);
    born :| DateOf(born, i.birthDate, today);
    YearOfDate(born);
  }

  /** An identity served as born on a real day was stored under that day's year. */
  lemma ServedDayIsOfStoredYear(keyring: Keyring, salt: Bytes, token: string, expectedBirthYear: int, codec: Codec, born: Civil)
    requires DecryptCivilIdentity(keyring, salt, token, expectedBirthYear, codec).Ok?
    requires RealDay(born) && FourDigitYear(born)
    requires DecryptCivilIdentity(keyring, salt, token, expectedBirthYear, codec).value.birthDate == Iso(born)
    ensures born.year == expectedBirthYear
  {
    YearOfDate(born);
  }

  /** Distinct keys derive distinct keys. */
  ghost predicate KeyMatters(codec: Codec) {
    forall m, m', s, s' :: codec.derive(m, s) == codec.derive(m', s') ==> m == m'
  }

  /** Under another key of the keyring for the same identifier, the blob is never served. */
  lemma ReplacedKeyServesNothing(keyring: Keyring, later: Keyring, salt: Bytes, i: Identity, iv: Bytes, today: int,
                                 overflow: Overflow, codec: Codec, year: int)
    requires Faithful(codec) && Authentic(codec.cipher) && KeyMatters(codec) && |iv| == 12
    requires EncryptCivilIdentity(keyring, salt, i, iv, today, overflow, codec).Ok?
    requires later.Get(keyring.activeKeyId) != keyring.Active()
    ensures
      var e := EncryptCivilIdentity(keyring, salt, i, iv, today, overflow, codec).value;
      DecryptCivilIdentity(later, salt, e.token, year, codec).Err?
  {
    var mine, theirs := Derived(keyring, salt, codec), Derived(later, salt, codec);
    DerivedKey(keyring, salt, codec, keyring.activeKeyId);
    DerivedKey(later, salt, codec, keyring.activeKeyId);
    assert theirs.Get(mine.activeKeyId) != mine.Active();
    ReplacedKeyOpensNothing(mine, theirs, codec.stringify(i), iv, codec.cipher);
  }

  /** Salts are of 32 bytes, for writing as for reading, and nothing invalid is ever sealed. */
  lemma RefusedBeforeSealing(keyring: Keyring, salt: Bytes, i: Identity, iv: Bytes, today: int, overflow: Overflow,
                             token: string, year: int, codec: Codec)
    ensures |salt| != 32 ==>
              && EncryptCivilIdentity(keyring, salt, i, iv, today, overflow, codec) == Err(Some(WrongSaltLength))
              && DecryptCivilIdentity(keyring, salt, token, year, codec) == Err(ReadWrongSaltLength)
    ensures EncryptCivilIdentity(keyring, salt, i, iv, today, overflow, codec).Ok? <==>
              |salt| == 32 && Validate(i, today, overflow).None? && keyring.Active().Some?
  {
    assert Derived(keyring, salt, codec).Active().Some? <==> keyring.Active().Some?;
  }
}
