/**
  The encrypted tokens of src/crypto/aes-gcm.ts: v1.<key id>.<iv>.<tag>.<ciphertext>.

  AES-256-GCM and base64url (section 5 of RFC 4648) are parameters; what is assumed of them is
  stated by Sealing.
 */
module SealedTokens {
  import opened Wrappers
  import opened Keyrings

  const DOT := '.'

  predicate DotFree(s: string) { forall i :: 0 <= i < |s| ==> s[i] != DOT }

  /** String.split('.') */
  function Split(s: string): (parts: seq<string>)
    ensures |parts| >= 1
  {
    if s == "" then [""]
    else if s[0] == DOT then [""] + Split(s[1..])
    else var rest := Split(s[1..]); [[s[0]] + rest[0]] + rest[1..]
  }

  /** Array.join('.') */
  function Join(parts: seq<string>): string {
    if parts == [] then "" else if |parts| == 1 then parts[0] else parts[0] + [DOT] + Join(parts[1..])
  }

  lemma {:induction false} SplitOne(s: string)
    requires DotFree(s)
    ensures Split(s) == [s]
  {
    if s != "" {
      SplitOne(s[1..]);
      assert s == [s[0]] + s[1..];
    }
  }

  lemma {:induction false} SplitAfterDot(s: string, rest: string)
    requires DotFree(s)
    ensures Split(s + [DOT] + rest) == [s] + Split(rest)
  {
    if s == "" {
      assert s + [DOT] + rest == [DOT] + rest;
    } else {
      var whole := s + [DOT] + rest;
      assert whole[1..] == s[1..] + [DOT] + rest;
      SplitAfterDot(s[1..], rest);
      assert s == [s[0]] + s[1..];
    }
  }

  lemma {:induction false} SplitJoin(parts: seq<string>)
    requires parts != [] && forall i :: 0 <= i < |parts| ==> DotFree(parts[i])
    ensures Split(Join(parts)) == parts
  {
    if |parts| == 1 {
      SplitOne(parts[0]);
    } else {
      SplitJoin(parts[1..]);
      SplitAfterDot(parts[0], Join(parts[1..]));
      assert parts == [parts[0]] + parts[1..];
    }
  }

  /** A dotted first field breaks into more parts than one. */
  lemma {:induction false} SplitCount(s: string, rest: string)
    ensures |Split(s + [DOT] + rest)| == |Split(s)| + |Split(rest)|
    ensures |Split(s)| == 1 <==> DotFree(s)
  {
    if s == "" {
      assert s + [DOT] + rest == [DOT] + rest;
    } else {
      assert (s + [DOT] + rest)[1..] == s[1..] + [DOT] + rest;
      SplitCount(s[1..], rest);
    }
  }

  // ---------------------------------------------------------------------------
  // Sealing
  // ---------------------------------------------------------------------------

  datatype Sealed = Sealed(tag: Bytes, ciphertext: Bytes)

  datatype Cipher = Cipher(
    seal: (Bytes, string, Bytes, string) -> Sealed,
    unseal: (Bytes, string, Bytes, Sealed) -> Option<string>,
    encode: Bytes -> string,
    decode: string -> Bytes)

  /** Opening undoes sealing, tags are 16 bytes, the text form is exact and has no dot. */
  ghost predicate Sealing(c: Cipher) {
    && (forall m, aad, iv, text :: c.unseal(m, aad, iv, c.seal(m, aad, iv, text)) == Some(text))
    && (forall m, aad, iv, text :: |c.seal(m, aad, iv, text).tag| == 16)
    && (forall b :: c.decode(c.encode(b)) == b && DotFree(c.encode(b)))
  }

  /** Nothing opens under another key than the one that sealed it. */
  ghost predicate Authentic(c: Cipher) {
    forall m, m', aad, aad', iv, iv', text :: m != m' ==> c.unseal(m', aad', iv', c.seal(m, aad, iv, text)) == None
  }

  const VERSION := "v1"

  function Aad(keyId: string): string { VERSION + [DOT] + keyId }

  datatype DecryptionError = UnexpectedShape | UnknownVersion | KeyNotHeld(keyId: string) | BadSizes | NotAuthentic

  function TokenOf(keyId: string, material: Bytes, plaintext: string, iv: Bytes, c: Cipher): string {
    var sealed := c.seal(material, Aad(keyId), iv, plaintext);
    Join([VERSION, keyId, c.encode(iv), c.encode(sealed.tag), c.encode(sealed.ciphertext)])
  }

  /** None where the keyring has no active key. */
  function Encrypt(keyring: Keyring, plaintext: string, iv: Bytes, c: Cipher): Option<string> {
    match keyring.Active()
    case None => None
    case Some(material) => Some(TokenOf(keyring.activeKeyId, material, plaintext, iv, c))
  }

  function Decrypt(keyring: Keyring, token: string, c: Cipher): Result<string, DecryptionError> {
    var parts := Split(token);
    if |parts| != 5 then Err(UnexpectedShape)
    else if parts[0] != VERSION then Err(UnknownVersion)
    else
      match keyring.Get(parts[1])
      case None => Err(KeyNotHeld(parts[1]))
      case Some(material) =>
        var iv, tag := c.decode(parts[2]), c.decode(parts[3]);
        if |iv| != 12 || |tag| != 16 then Err(BadSizes)
        else
          match c.unseal(material, Aad(parts[1]), iv, Sealed(tag, c.decode(parts[4])))
          case None => Err(NotAuthentic)
          case Some(text) => Ok(text)
  }

  function KeyIdOf(token: string): Option<string> {
    var parts := Split(token);
    if |parts| == 5 && parts[0] == VERSION then Some(parts[1]) else None
  }

  lemma TokenParts(keyId: string, material: Bytes, plaintext: string, iv: Bytes, c: Cipher)
    requires Sealing(c) && DotFree(keyId)
    ensures
      var sealed := c.seal(material, Aad(keyId), iv, plaintext);
      Split(TokenOf(keyId, material, plaintext, iv, c)) ==
      [VERSION, keyId, c.encode(iv), c.encode(sealed.tag), c.encode(sealed.ciphertext)]
  {
    var sealed := c.seal(material, Aad(keyId), iv, plaintext);
    SplitJoin([VERSION, keyId, c.encode(iv), c.encode(sealed.tag), c.encode(sealed.ciphertext)]);
  }

  /** A dot in the key identifier leaves more than five parts. */
  lemma DottedToken(keyId: string, material: Bytes, plaintext: string, iv: Bytes, c: Cipher)
    requires Sealing(c) && !DotFree(keyId)
    ensures |Split(TokenOf(keyId, material, plaintext, iv, c))| > 5
  {
    var sealed := c.seal(material, Aad(keyId), iv, plaintext);
    var tail := [c.encode(iv), c.encode(sealed.tag), c.encode(sealed.ciphertext)];
    SplitJoin(tail);
    var token := TokenOf(keyId, material, plaintext, iv, c);
    assert [VERSION, keyId] + tail == [VERSION, keyId, c.encode(iv), c.encode(sealed.tag), c.encode(sealed.ciphertext)];
    JoinTail(keyId, tail);
    SplitCount(keyId, Join(tail));
    SplitAfterDot(VERSION, keyId + [DOT] + Join(tail));
  }

  lemma JoinTail(keyId: string, tail: seq<string>)
    requires |tail| == 3
    ensures Join([VERSION, keyId] + tail) == VERSION + [DOT] + (keyId + [DOT] + Join(tail))
  {
    var inner := [keyId] + tail;
    assert ([VERSION] + inner)[1..] == inner && inner[1..] == tail;
    assert [VERSION, keyId] + tail == [VERSION] + inner;
  }

  /**
    A token opens to its plaintext under every later keyring that keeps the writing key, and
    names that key, exactly when the key identifier has no dot; with one it never opens at all.
   */
  lemma TokenRoundTripIff(keyring: Keyring, later: Keyring, plaintext: string, iv: Bytes, c: Cipher)
    requires Sealing(c) && |iv| == 12
    requires keyring.Active().Some? && later.Get(keyring.activeKeyId) == keyring.Active()
    ensures
      var token := Encrypt(keyring, plaintext, iv, c).value;
      && (Decrypt(later, token, c) == Ok(plaintext) <==> DotFree(keyring.activeKeyId))
      && (KeyIdOf(token) == Some(keyring.activeKeyId) <==> DotFree(keyring.activeKeyId))
      && (!DotFree(keyring.activeKeyId) ==> Decrypt(later, token, c) == Err(UnexpectedShape) && KeyIdOf(token) == None)
  {
    var keyId, material := keyring.activeKeyId, keyring.Active().value;
    if DotFree(keyId) {
      TokenParts(keyId, material, plaintext, iv, c);
    } else {
      DottedToken(keyId, material, plaintext, iv, c);
    }
  }

  /** Under another material for the same identifier, a token does not open. */
  lemma ReplacedKeyOpensNothing(keyring: Keyring, later: Keyring, plaintext: string, iv: Bytes, c: Cipher)
    requires Sealing(c) && Authentic(c) && |iv| == 12
    requires keyring.Active().Some? && later.Get(keyring.activeKeyId) != keyring.Active()
    ensures Decrypt(later, Encrypt(keyring, plaintext, iv, c).value, c).Err?
  {
    var keyId, material := keyring.activeKeyId, keyring.Active().value;
    if DotFree(keyId) {
      TokenParts(keyId, material, plaintext, iv, c);
      var sealed := c.seal(material, Aad(keyId), iv, plaintext);
      assert sealed == Sealed(sealed.tag, sealed.ciphertext);
    } else {
      DottedToken(keyId, material, plaintext, iv, c);
    }
  }

  /** What is sealed for one purpose does not open for another. */
  ghost predicate Bound(c: Cipher) {
    forall m, aad, aad', iv, text :: aad != aad' ==> c.unseal(m, aad', iv, c.seal(m, aad, iv, text)) == None
  }

  /** The key identifier is sealed with the text: renamed, a token does not open, even if the new name holds the same key. */
  lemma RenamedKeyOpensNothing(keyId: string, other: string, material: Bytes, plaintext: string, iv: Bytes, later: Keyring, c: Cipher)
    requires Sealing(c) && Bound(c) && DotFree(other) && other != keyId
    requires later.Get(other) == Some(material)
    ensures
      var sealed := c.seal(material, "v1." + keyId, iv, plaintext);
      Decrypt(later, Join(["v1", other, c.encode(iv), c.encode(sealed.tag), c.encode(sealed.ciphertext)]), c).Err?
  {
    var sealed := c.seal(material, "v1." + keyId, iv, plaintext);
    var parts := ["v1", other, c.encode(iv), c.encode(sealed.tag), c.encode(sealed.ciphertext)];
    SplitJoin(parts);
    assert Aad(other) == "v1." + other;
    assert ("v1." + other)[3..] == other && ("v1." + keyId)[3..] == keyId;
    assert Sealed(sealed.tag, sealed.ciphertext) == sealed;
  }

  /** What opens has the version, five parts, a key the keyring holds, and an IV and a tag of the right size. */
  lemma OnlyWellFormedOpens(keyring: Keyring, token: string, c: Cipher)
    requires Decrypt(keyring, token, c).Ok?
    ensures
      var parts := Split(token);
      && |parts| == 5 && parts[0] == "v1" && keyring.Get(parts[1]).Some?
      && |c.decode(parts[2])| == 12 && |c.decode(parts[3])| == 16
      && c.unseal(keyring.Get(parts[1]).value, "v1." + parts[1], c.decode(parts[2]),
                  Sealed(c.decode(parts[3]), c.decode(parts[4]))) == Some(Decrypt(keyring, token, c).value)
  {
    assert Aad(Split(token)[1]) == "v1." + Split(token)[1];
  }
}
