/**
  The assembly of the four keyrings (src/crypto/keyring.ts): every violation listed at once, and
  no two keys of equal value, within a keyring or across them.
 */
module Keyrings {
  import opened Wrappers

  type Bytes = seq<int>

  /** Parsed keys, in the order of the JSON object. */
  type Material = seq<(string, Bytes)>

  /** What a keys variable holds; an entry without bytes is one whose value is not a string. */
  datatype KeysVar = Unset | Unreadable | NotAnObject | Entries(items: seq<(string, Option<Bytes>)>)

  /** `activeVar` is "" when unset. */
  datatype Source = Source(keysVar: KeysVar, activeVar: string)

  datatype Spec = Spec(name: string, minBytes: nat, exactBytes: Option<nat>)

  const ENC_SPEC := Spec("USER_CORE_ENC", 32, Some(32))
  const HMAC_SPEC := Spec("USER_CORE_HMAC", 32, None)
  const PROOF_CODE_SPEC := Spec("USER_CORE_PROOF_CODE", 32, None)
  const REF_HMAC_SPEC := Spec("USER_CORE_REF_HMAC", 32, None)

  datatype Violation =
    | KeysMissing(name: string)
    | KeysInvalid(name: string)
    | ActiveMissing(name: string)
    | ActiveUnknown(name: string, keyId: string)
    | SameValue(first: Entry, second: Entry)

  /** A key as the collision check names it. */
  datatype Entry = Entry(name: string, keyId: string)

  predicate GoodItem(item: (string, Option<Bytes>), spec: Spec) {
    && item.1.Some?
    && (spec.exactBytes.Some? ==> |item.1.value| == spec.exactBytes.value)
    && |item.1.value| >= spec.minBytes
  }

  /** The items before the first faulty one. */
  function GoodPrefix(items: seq<(string, Option<Bytes>)>, spec: Spec): (n: nat)
    ensures n <= |items| && (forall i :: 0 <= i < n ==> GoodItem(items[i], spec))
    ensures n < |items| ==> !GoodItem(items[n], spec)
  {
    if items == [] || !GoodItem(items[0], spec) then 0 else 1 + GoodPrefix(items[1..], spec)
  }

  function Taken(items: seq<(string, Option<Bytes>)>, spec: Spec, n: nat): Material
    requires n <= |items| && forall i :: 0 <= i < n ==> GoodItem(items[i], spec)
  {
    seq(n, i requires 0 <= i < n && GoodItem(items[i], spec) => (items[i].0, items[i].1.value))
  }

  /** What is kept of a keyring, faulty or not. */
  function MaterialOf(src: Source, spec: Spec): Material {
    if src.keysVar.Entries? then Taken(src.keysVar.items, spec, GoodPrefix(src.keysVar.items, spec)) else []
  }

  predicate Holds(material: Material, keyId: string) {
    exists i :: 0 <= i < |material| && material[i].0 == keyId
  }

  /** The variable is set and every one of its keys is well formed. */
  predicate WellFormed(src: Source, spec: Spec) {
    src.keysVar.Entries? && forall i :: 0 <= i < |src.keysVar.items| ==> GoodItem(src.keysVar.items[i], spec)
  }

  /** The active identifier is given, and is a key when there is any. */
  predicate ActiveOk(src: Source, spec: Spec) {
    src.activeVar != "" && (MaterialOf(src, spec) != [] ==> Holds(MaterialOf(src, spec), src.activeVar))
  }

  function KeysFault(src: Source, spec: Spec): seq<Violation> {
    if src.keysVar.Unset? then [KeysMissing(spec.name)] else if WellFormed(src, spec) then [] else [KeysInvalid(spec.name)]
  }

  function ActiveFault(src: Source, spec: Spec): seq<Violation> {
    if ActiveOk(src, spec) then []
    else if src.activeVar == "" then [ActiveMissing(spec.name)] else [ActiveUnknown(spec.name, src.activeVar)]
  }

  /** All keys of all families, flattened. */
  datatype Labelled = Labelled(entry: Entry, material: Bytes)

  function Label(name: string, material: Material): seq<Labelled> {
    seq(|material|, i requires 0 <= i < |material| => Labelled(Entry(name, material[i].0), material[i].1))
  }

  predicate AllDifferent(entries: seq<Labelled>) {
    forall i, j :: 0 <= i < j < |entries| ==> entries[i].material != entries[j].material
  }

  /** The violations of entry `i` against the entries from `j` on. */
  function Against(entries: seq<Labelled>, i: nat, j: nat): seq<Violation>
    requires i < |entries| && i < j <= |entries|
    decreases |entries| - j
  {
    if j == |entries| then []
    else (if entries[i].material == entries[j].material then [SameValue(entries[i].entry, entries[j].entry)] else [])
         + Against(entries, i, j + 1)
  }

  /** The violations of the entries from `i` on, pair by pair. */
  function Collisions(entries: seq<Labelled>, i: nat): seq<Violation>
    requires i <= |entries|
    decreases |entries| - i
  {
    if i == |entries| then [] else Against(entries, i, i + 1) + Collisions(entries, i + 1)
  }

  datatype Keyring = Keyring(activeKeyId: string, keys: map<string, Bytes>)
  {
    function Get(keyId: string): Option<Bytes> { if keyId in keys then Some(keys[keyId]) else None }

    /** None where the source throws. */
    function Active(): Option<Bytes> { Get(activeKeyId) }
  }

  datatype Assembly = Assembly(encryption: Keyring, fingerprint: Keyring, proofCode: Keyring, reference: Keyring)

  function MapOf(material: Material): (m: map<string, Bytes>)
    ensures forall k :: k in m <==> Holds(material, k)
  {
    if material == [] then map[]
    else
      var n := |material| - 1;
      var before := MapOf(material[..n]);
      MapOfGrows(material, before);
      before[material[n].0 := material[n].1]
  }

  lemma MapOfGrows(material: Material, before: map<string, Bytes>)
    requires material != [] && forall k :: k in before <==> Holds(material[..|material| - 1], k)
    ensures forall k :: Holds(material, k) <==> k in before || k == material[|material| - 1].0
  {
    forall k | Holds(material, k) ensures k in before || k == material[|material| - 1].0 {
      var i :| 0 <= i < |material| && material[i].0 == k;
      if i < |material| - 1 { assert material[..|material| - 1][i].0 == k; }
    }
    forall k | k in before ensures Holds(material, k) {
      var i :| 0 <= i < |material| - 1 && material[..|material| - 1][i].0 == k;
      assert material[i].0 == k;
    }
  }

  class Assembler {
    var violations: seq<Violation>

    constructor ()
      ensures violations == []
    {
      violations := [];
    }

    method ParseKeyring(src: Source, spec: Spec) returns (material: Material)
      modifies this
      ensures material == MaterialOf(src, spec)
      ensures violations == old(violations) + KeysFault(src, spec) + ActiveFault(src, spec)
    {
      material := [];
      match src.keysVar {
        case Unset => violations := violations + [KeysMissing(spec.name)];
        case Unreadable => violations := violations + [KeysInvalid(spec.name)];
        case NotAnObject => violations := violations + [KeysInvalid(spec.name)];
        case Entries(items) =>
          var i := 0;
          while i < |items| && GoodItem(items[i], spec)
            invariant 0 <= i <= GoodPrefix(items, spec)
            invariant material == Taken(items, spec, i)
            invariant violations == old(violations)
          {
            PrefixGoesOn(items, spec, i);
            material := material + [(items[i].0, items[i].1.value)];
            i := i + 1;
          }
          assert WellFormed(src, spec) <==> i == |items|;
          if i < |items| { violations := violations + [KeysInvalid(spec.name)]; }
      }
      assert violations == old(violations) + KeysFault(src, spec);
      assert material == MaterialOf(src, spec);
      if src.activeVar == "" {
        violations := violations + [ActiveMissing(spec.name)];
      } else if |material| > 0 && !Holds(material, src.activeVar) {
        violations := violations + [ActiveUnknown(spec.name, src.activeVar)];
      }
    }

    method CollisionViolations(entries: seq<Labelled>) returns (found: seq<Violation>)
      ensures found == Collisions(entries, 0)
    {
      found := [];
      var i := 0;
      while i < |entries|
        invariant 0 <= i <= |entries|
        invariant found + Collisions(entries, i) == Collisions(entries, 0)
      {
        ghost var before := found;
        var j := i + 1;
        while j < |entries|
          invariant i < j <= |entries|
          invariant found + Against(entries, i, j) == before + Against(entries, i, i + 1)
        {
          ghost var rest := Against(entries, i, j + 1);
          ghost var so := found;
          if entries[i].material == entries[j].material {
            found := found + [SameValue(entries[i].entry, entries[j].entry)];
            assert found + rest == so + Against(entries, i, j);
          }
          j := j + 1;
        }
        assert before + Collisions(entries, i) == (before + Against(entries, i, i + 1)) + Collisions(entries, i + 1);
        i := i + 1;
      }
    }

    method Assemble(enc: Source, fp: Source, proofCode: Source, reference: Source) returns (r: Result<Assembly, seq<Violation>>)
      requires violations == []
      modifies this
      ensures r.Ok? <==> Assemblable(enc, fp, proofCode, reference)
      ensures r.Ok? ==> r.value == Assembled(enc, fp, proofCode, reference)
      ensures r.Err? ==> r.error == violations != []
    {
      var encM := ParseKeyring(enc, ENC_SPEC);
      var fpM := ParseKeyring(fp, HMAC_SPEC);
      var codeM := ParseKeyring(proofCode, PROOF_CODE_SPEC);
      var refM := ParseKeyring(reference, REF_HMAC_SPEC);
      var collisions := CollisionViolations(AllEntries(encM, fpM, codeM, refM));
      NoCollisionIff(AllEntries(encM, fpM, codeM, refM), 0);
      violations := violations + collisions;
      if |violations| > 0 { return Err(violations); }
      return Ok(Assembled(enc, fp, proofCode, reference));
    }
  }

  lemma {:induction false} PrefixGoesOn(items: seq<(string, Option<Bytes>)>, spec: Spec, i: nat)
    requires i < |items| && i <= GoodPrefix(items, spec) && GoodItem(items[i], spec)
    ensures i < GoodPrefix(items, spec)
  {
  }

  function AllEntries(enc: Material, fp: Material, code: Material, reference: Material): seq<Labelled> {
    Label("USER_CORE_ENC", enc) + Label("USER_CORE_HMAC", fp)
    + Label("USER_CORE_PROOF_CODE", code) + Label("USER_CORE_REF_HMAC", reference)
  }

  function Assembled(enc: Source, fp: Source, code: Source, reference: Source): Assembly {
    Assembly(
      Keyring(enc.activeVar, MapOf(MaterialOf(enc, ENC_SPEC))),
      Keyring(fp.activeVar, MapOf(MaterialOf(fp, HMAC_SPEC))),
      Keyring(code.activeVar, MapOf(MaterialOf(code, PROOF_CODE_SPEC))),
      Keyring(reference.activeVar, MapOf(MaterialOf(reference, REF_HMAC_SPEC))))
  }

  predicate Assemblable(enc: Source, fp: Source, code: Source, reference: Source) {
    && WellFormed(enc, ENC_SPEC) && ActiveOk(enc, ENC_SPEC)
    && WellFormed(fp, HMAC_SPEC) && ActiveOk(fp, HMAC_SPEC)
    && WellFormed(code, PROOF_CODE_SPEC) && ActiveOk(code, PROOF_CODE_SPEC)
    && WellFormed(reference, REF_HMAC_SPEC) && ActiveOk(reference, REF_HMAC_SPEC)
    && AllDifferent(AllEntries(MaterialOf(enc, ENC_SPEC), MaterialOf(fp, HMAC_SPEC),
                               MaterialOf(code, PROOF_CODE_SPEC), MaterialOf(reference, REF_HMAC_SPEC)))
  }

  lemma {:induction false} NoneAgainstIff(entries: seq<Labelled>, i: nat, j: nat)
    requires i < |entries| && i < j <= |entries|
    ensures Against(entries, i, j) == [] <==> forall k :: j <= k < |entries| ==> entries[i].material != entries[k].material
    decreases |entries| - j
  {
    if j < |entries| { NoneAgainstIff(entries, i, j + 1); }
  }

  /** No violation is found exactly when all keys, of one keyring or of two, differ in value. */
  lemma {:induction false} NoCollisionIff(entries: seq<Labelled>, i: nat)
    requires i <= |entries|
    ensures Collisions(entries, i) == [] <==>
              forall k, l :: i <= k < l < |entries| ==> entries[k].material != entries[l].material
    decreases |entries| - i
  {
    if i < |entries| {
      NoCollisionIff(entries, i + 1);
      NoneAgainstIff(entries, i, i + 1);
    }
  }

  /** A keyring that was assembled has its active key exactly when its JSON object was not empty. */
  lemma ActiveKeyExistsIff(src: Source, spec: Spec)
    requires WellFormed(src, spec) && ActiveOk(src, spec)
    ensures Keyring(src.activeVar, MapOf(MaterialOf(src, spec))).Active().Some? <==> src.keysVar.items != []
  {
    assert GoodPrefix(src.keysVar.items, spec) == |src.keysVar.items|;
  }

  /** An empty object assembles, and leaves every use of its active key to fail. */
  lemma EmptyKeyringsAssemble()
    ensures
      var src := Source(Entries([]), "k1");
      && Assemblable(src, src, src, src)
      && Assembled(src, src, src, src).encryption.Active() == None
  {
  }

  lemma {:induction false} Keyed(material: Material, i: nat)
    requires i < |material|
    requires forall a, b :: 0 <= a < b < |material| ==> material[a].0 != material[b].0
    ensures material[i].0 in MapOf(material) && MapOf(material)[material[i].0] == material[i].1
  {
    var n := |material| - 1;
    if i < n {
      Keyed(material[..n], i);
      assert material[..n][i] == material[i];
    } else {
      assert Holds(material, material[n].0);
    }
  }

  /** Each key of a well-formed object, where no name comes twice, is looked up as its own bytes. */
  lemma KeyIsItsOwn(src: Source, spec: Spec, i: nat)
    requires WellFormed(src, spec) && i < |src.keysVar.items|
    requires forall a, b :: 0 <= a < b < |src.keysVar.items| ==> src.keysVar.items[a].0 != src.keysVar.items[b].0
    ensures Keyring(src.activeVar, MapOf(MaterialOf(src, spec))).Get(src.keysVar.items[i].0) == src.keysVar.items[i].1
  {
    var items, material := src.keysVar.items, MaterialOf(src, spec);
    assert |material| == |items| by { assert GoodPrefix(items, spec) == |items|; }
    assert forall a :: 0 <= a < |items| ==> material[a] == (items[a].0, items[a].1.value);
    Keyed(material, i);
  }

  /** Where a key of the map comes from. */
  lemma {:induction false} Origin(material: Material, keyId: string) returns (i: nat)
    requires keyId in MapOf(material)
    ensures i < |material| && material[i] == (keyId, MapOf(material)[keyId])
  {
    var n := |material| - 1;
    if material[n].0 == keyId {
      i := n;
    } else {
      i := Origin(material[..n], keyId);
      assert material[..n][i] == material[i];
    }
  }

  /** The four keyrings of an assembly, in order. */
  function Rings(a: Assembly): seq<Keyring> { [a.encryption, a.fingerprint, a.proofCode, a.reference] }

  function Materials(enc: Source, fp: Source, code: Source, reference: Source): (r: seq<Material>)
    ensures |r| == 4
  {
    [MaterialOf(enc, ENC_SPEC), MaterialOf(fp, HMAC_SPEC), MaterialOf(code, PROOF_CODE_SPEC), MaterialOf(reference, REF_HMAC_SPEC)]
  }

  /** The place of a keyring's first key among all keys. */
  function Offset(ms: seq<Material>, n: nat): nat
    requires n <= |ms|
  {
    if n == 0 then 0 else Offset(ms, n - 1) + |ms[n - 1]|
  }

  lemma EntryPlace(ms: seq<Material>, n: nat, i: nat)
    requires |ms| == 4 && n < 4 && i < |ms[n]|
    ensures
      var all := AllEntries(ms[0], ms[1], ms[2], ms[3]);
      Offset(ms, n) + i < |all| && all[Offset(ms, n) + i].material == ms[n][i].1
  {
    assert Offset(ms, 1) == |ms[0]| && Offset(ms, 2) == |ms[0]| + |ms[1]| && Offset(ms, 3) == |ms[0]| + |ms[1]| + |ms[2]|;
  }

  lemma {:induction false} PlacesApart(ms: seq<Material>, m: nat, n: nat)
    requires m < n <= |ms|
    ensures Offset(ms, m) + |ms[m]| <= Offset(ms, n)
    decreases n
  {
    if m < n - 1 { PlacesApart(ms, m, n - 1); }
  }

  /** Two different entries, of one family or of two, have different bytes. */
  lemma EntriesDiffer(ms: seq<Material>, m: nat, i: nat, n: nat, j: nat)
    requires |ms| == 4 && m < 4 && n < 4 && i < |ms[m]| && j < |ms[n]| && (m, i) != (n, j)
    requires AllDifferent(AllEntries(ms[0], ms[1], ms[2], ms[3]))
    ensures ms[m][i].1 != ms[n][j].1
  {
    EntryPlace(ms, m, i);
    EntryPlace(ms, n, j);
    if m < n { PlacesApart(ms, m, n); } else if n < m { PlacesApart(ms, n, m); }
  }

  lemma MapsShareNothing(ms: seq<Material>, m: nat, k: string, n: nat, l: string)
    requires |ms| == 4 && m < 4 && n < 4 && (m, k) != (n, l)
    requires AllDifferent(AllEntries(ms[0], ms[1], ms[2], ms[3]))
    requires k in MapOf(ms[m]) && l in MapOf(ms[n])
    ensures MapOf(ms[m])[k] != MapOf(ms[n])[l]
  {
    var i := Origin(ms[m], k);
    var j := Origin(ms[n], l);
    EntriesDiffer(ms, m, i, n, j);
  }

  /** Every key is as long as its family demands. */
  lemma KeyIsLongEnough(src: Source, spec: Spec, k: string)
    requires k in MapOf(MaterialOf(src, spec))
    ensures
      var key := MapOf(MaterialOf(src, spec))[k];
      |key| >= spec.minBytes && (spec.exactBytes.Some? ==> |key| == spec.exactBytes.value)
  {
    var i := Origin(MaterialOf(src, spec), k);
    assert GoodItem(src.keysVar.items[i], spec);
  }

  /** An encryption key is a key of AES-256, and no key of another family is shorter. */
  lemma KeyLengths(enc: Source, fp: Source, code: Source, reference: Source, n: nat, k: string)
    requires n < 4 && k in MapOf(Materials(enc, fp, code, reference)[n])
    ensures
      var key := MapOf(Materials(enc, fp, code, reference)[n])[k];
      |key| >= 32 && (n == 0 ==> |key| == 32)
  {
    if n == 0 { KeyIsLongEnough(enc, ENC_SPEC, k); }
    if n == 1 { KeyIsLongEnough(fp, HMAC_SPEC, k); }
    if n == 2 { KeyIsLongEnough(code, PROOF_CODE_SPEC, k); }
    if n == 3 { KeyIsLongEnough(reference, REF_HMAC_SPEC, k); }
  }

  lemma RingIsMap(enc: Source, fp: Source, code: Source, reference: Source, n: nat)
    requires n < 4
    ensures Rings(Assembled(enc, fp, code, reference))[n].keys == MapOf(Materials(enc, fp, code, reference)[n])
  {
  }

  lemma AssemblyDiffers(enc: Source, fp: Source, code: Source, reference: Source)
    requires Assemblable(enc, fp, code, reference)
    ensures
      var ms := Materials(enc, fp, code, reference);
      AllDifferent(AllEntries(ms[0], ms[1], ms[2], ms[3]))
  {
  }

  /** In an assembly, no two keys share their bytes, whichever of the four keyrings they are of, and none is too short. */
  lemma KeyringsShareNoSecret(enc: Source, fp: Source, code: Source, reference: Source, m: nat, k: string, n: nat, l: string)
    requires Assemblable(enc, fp, code, reference) && m < 4 && n < 4 && (m, k) != (n, l)
    requires
      var rings := Rings(Assembled(enc, fp, code, reference));
      k in rings[m].keys && l in rings[n].keys
    ensures
      var rings := Rings(Assembled(enc, fp, code, reference));
      && rings[m].Get(k) != rings[n].Get(l)
      && |rings[m].keys[k]| >= 32 && (m == 0 ==> |rings[m].keys[k]| == 32)
  {
    KeyLengths(enc, fp, code, reference, m, k);
    RingIsMap(enc, fp, code, reference, m);
    RingIsMap(enc, fp, code, reference, n);
    AssemblyDiffers(enc, fp, code, reference);
    MapsShareNothing(Materials(enc, fp, code, reference), m, k, n, l);
  }
}
