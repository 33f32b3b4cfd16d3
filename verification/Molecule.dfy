/**
 The molecule as the object the library mutates (src/molecule.c:60-193, 266-575, 762-1095,
 1194-1219, src/libraries/check_molecule.c:155-358): adding atoms, hashing, signing,
 serialising and checking, each against the functions of Hashing and Signing.
 */
module Molecules {
  import opened Basics
  import opened Digits
  import opened Decimal
  import opened NumberPrinter
  import opened Base17
  import opened Chains
  import opened ChainRunner
  import opened Base64
  import opened Atoms
  import opened AtomJson
  import opened AtomObject
  import opened Hashing
  import opened Fragments
  import opened Signing
  import opened SigningSteps
  import opened Wallets

  const INITIAL_CAPACITY: nat := 8

  predicate CStrings(fragments: seq<Text>) {
    forall i :: 0 <= i < |fragments| ==> fragments[i].Some? ==> NUL !in fragments[i].value
  }

  lemma {:induction false} RebuiltHasNoNul(fragments: seq<Text>)
    requires CStrings(fragments)
    ensures NUL !in Rebuilt(fragments)
  {
    if fragments != [] {
      RebuiltHasNoNul(fragments[..|fragments| - 1]);
    }
  }

  function WalletJson(w: Wallet, asDouble: real -> Double): Json
    reads w
  {
    JObj([("address", JStr(OrEmpty(w.address))), ("position", JStr(OrEmpty(w.position))),
          ("token", JStr(OrEmpty(w.token))), ("balance", JNum(asDouble(w.balance)))])
  }

  class Molecule {
    var secret: Text
    var bundle: Text
    var molecularHash: Text
    var cellSlug: Text
    var version: Text
    var createdAt: int
    var sourceWallet: Wallet?
    var remainderWallet: Wallet?
    var atoms: seq<Atom>
    var atomCapacity: nat
    var isSigned: bool
    var isVerified: bool

    /** knishio_molecule_create. */
    constructor (secret: Text, bundle: Text, sourceWallet: Wallet?, remainderWallet: Wallet?, cellSlug: Text,
                 version: Text, now: int)
      ensures Valid() && atoms == [] && !isSigned && !isVerified
      ensures this.sourceWallet == sourceWallet && this.remainderWallet == remainderWallet
      ensures Data() == MoleculeData(secret, bundle, None, cellSlug, version, now,
                                     if sourceWallet == null then None else Some(sourceWallet.otsVersion), [])
    {
      this.secret, this.bundle, this.cellSlug, this.version := secret, bundle, cellSlug, version;
      this.sourceWallet, this.remainderWallet := sourceWallet, remainderWallet;
      molecularHash, createdAt, atoms, atomCapacity := None, now, [], INITIAL_CAPACITY;
      isSigned, isVerified := false, false;
    }

    /** The array has room for its atoms, up to the limit. */
    ghost predicate Sized()
      reads this
    {
      |atoms| <= atomCapacity && 0 < atomCapacity <= MAX_ATOMS
    }

    /** And no atom is in it twice. */
    ghost predicate Valid()
      reads this
    {
      Sized() && Distinct(atoms)
    }

    function SourceOts(): Option<int>
      reads this, if sourceWallet == null then {} else {sourceWallet}
    {
      if sourceWallet == null then None else Some(sourceWallet.otsVersion)
    }

    function Data(): MoleculeData
      reads this, atoms, if sourceWallet == null then {} else {sourceWallet}
    {
      MoleculeData(secret, bundle, molecularHash, cellSlug, version, createdAt, SourceOts(), DataOf(atoms))
    }

    /** resize_atoms_array: doubles up to the limit, and fails when that gains nothing. */
    method ResizeAtoms() returns (error: Error)
      requires 0 < atomCapacity <= MAX_ATOMS
      modifies this`atomCapacity
      ensures error == if old(atomCapacity) < MAX_ATOMS then Ok else InvalidArgs
      ensures error == Ok ==> atomCapacity > old(atomCapacity)
      ensures error == Ok ==> atomCapacity == if 2 * old(atomCapacity) <= MAX_ATOMS then 2 * old(atomCapacity) else MAX_ATOMS
      ensures error != Ok ==> atomCapacity == old(atomCapacity)
    {
      var newCapacity := atomCapacity * 2;
      if newCapacity > MAX_ATOMS {
        newCapacity := MAX_ATOMS;
      }
      if newCapacity <= atomCapacity {
        return InvalidArgs;
      }
      atomCapacity := newCapacity;
      return Ok;
    }

    /**
     knishio_molecule_add_atom: refused exactly at the limit, and then nothing changes;
     otherwise the atom gets its position as index and any hash or signature is void.
     */
    method AddAtom(atom: Atom) returns (error: Error)
      requires Sized()
      modifies this`atoms, this`atomCapacity, this`molecularHash, this`isSigned, this`isVerified, atom`index
      ensures Sized() && (old(Valid()) && atom !in old(atoms) ==> Valid())
      ensures error == if |old(atoms)| < MAX_ATOMS then Ok else InvalidArgs
      ensures error != Ok ==> unchanged(this) && unchanged(atom)
      ensures error == Ok ==>
                atoms == old(atoms) + [atom] && molecularHash == None && !isSigned && !isVerified &&
                atom.Data() == old(atom.Data()).(index := |old(atoms)|)
    {
      if |atoms| >= atomCapacity {
        error := ResizeAtoms();
        if error != Ok {
          return error;
        }
      }
      molecularHash := None;
      isSigned := false;
      isVerified := false;
      error := atom.SetIndex(|atoms|);
      atoms := atoms + [atom];
    }

    /** knishio_molecule_generate_hash. */
    method GenerateHash(c: Crypto, printJson: Json -> string) returns (error: Error)
      requires Valid() && c.Valid()
      modifies this`molecularHash
      ensures error == if atoms == [] then AtomsMissing else Ok
      ensures molecularHash == if atoms == [] then old(molecularHash)
                               else Some(MolecularHash(c, printJson, old(DataOf(atoms))))
    {
      if |atoms| == 0 {
        return AtomsMissing;
      }
      var hash := HashAtoms(c, printJson, atoms);
      molecularHash := Some(hash);
      return Ok;
    }

    /** check_molecular_hash: the declared hash is the one the atoms hash to. */
    method CheckMolecularHash(c: Crypto, printJson: Json -> string) returns (ok: bool)
      requires Valid() && c.Valid()
      ensures ok <==> atoms != [] && molecularHash == Some(MolecularHash(c, printJson, old(DataOf(atoms))))
    {
      if molecularHash.None? || |molecularHash.value| != HASH_LENGTH {
        return false;
      }
      if |atoms| == 0 {
        return false;
      }
      var hash := HashAtoms(c, printJson, atoms);
      return hash == molecularHash.value;
    }

    /** The bundle step of sign(). */
    method DeriveBundle(c: Crypto, bundleArg: Text, anonymous: bool) returns (ok: bool)
      requires secret.Some?
      modifies this`bundle
      ensures ok <==> SigningBundle(c, secret.value, old(bundle), bundleArg, anonymous).Some?
      ensures ok ==> SigningBundle(c, secret.value, old(bundle), bundleArg, anonymous) == Some(bundle)
      ensures !ok ==> bundle == old(bundle)
    {
      if !anonymous && bundle.None? {
        if bundleArg.Some? {
          bundle := bundleArg;
        } else {
          var derived := BundleHash(c, secret.value);
          if derived.None? {
            return false;
          }
          bundle := derived;
        }
      }
      return true;
    }

    /** The key that signs the sorted atoms. */
    method PrivateKey(c: Crypto) returns (error: Error, key: string)
      requires c.Valid() && secret.Some? && atoms != []
      ensures error == KeyError(c, secret.value, old(DataOf(atoms)), SourceOts())
      ensures error == Ok ==> SigningKey(c, secret.value, old(DataOf(atoms)), SourceOts()) == Some(key)
    {
      var signingAtom := atoms[0];
      if signingAtom.position.None? {
        return InvalidArgs, "";
      }
      var privateKey := WalletKey(c, secret.value, signingAtom.token, signingAtom.position.value,
                                  SigningVersion(SourceOts()));
      if privateKey.None? {
        return CryptoError, "";
      }
      return Ok, privateKey.value;
    }

    /** The key, the chains and the distribution, on atoms already sorted and hashed. */
    method SignSorted(c: Crypto, kcore: Kcore, hash: string, compressed: bool, ghost sorted: seq<AtomData>)
      returns (error: Error)
      requires Valid() && c.Valid() && Honest(c, kcore) && secret.Some? && atoms != [] && IsSignable(hash)
      requires sorted == DataOf(atoms)
      modifies this`isSigned, (set a <- atoms)`otsFragment
      ensures error == KeyError(c, secret.value, sorted, SourceOts())
      ensures isSigned == (error == Ok || old(isSigned))
      ensures error != Ok ==> DataOf(atoms) == sorted
      ensures error == Ok ==>
                DataOf(atoms) == Fragmented(sorted,
                  SignatureText(c, SigningKey(c, secret.value, sorted, SourceOts()).value, hash, compressed))
    {
      var key: string;
      error, key := PrivateKey(c);
      if error != Ok {
        return error;
      }
      assert IsKeyLength(|key|) && IsNumeral(16, key);
      var signature := ComputeText(c, kcore, key, hash, compressed);
      DistributeSignature(atoms, signature);
      isSigned := true;
    }

    /** knishio_molecule_sign. */
    method Sign(c: Crypto, kcore: Kcore, printJson: Json -> string, bundleArg: Text, anonymous: bool,
                compressed: bool)
      returns (error: Error)
      requires Valid() && c.Valid() && Honest(c, kcore)
      modifies this`atoms, this`bundle, this`molecularHash, this`isSigned, (set a <- atoms)`otsFragment
      ensures Valid() && multiset(atoms) == multiset(old(atoms))
      ensures (error, Data()) == SignOutcome(c, printJson, old(Data()), bundleArg, anonymous, compressed)
      ensures isSigned == (error == Ok || old(isSigned))
    {
      hide SignedMolecule, MolecularHash, SigningKey, SigningBundle, SortByIndex;
      if secret.None? {
        return InvalidArgs;
      }
      if |atoms| == 0 {
        return AtomsMissing;
      }
      error := SortAndSign(c, kcore, printJson, bundleArg, anonymous, compressed);
    }

    /** sign() after its argument checks. */
    method SortAndSign(c: Crypto, kcore: Kcore, printJson: Json -> string, bundleArg: Text, anonymous: bool,
                       compressed: bool)
      returns (error: Error)
      requires Valid() && c.Valid() && Honest(c, kcore) && secret.Some? && atoms != []
      modifies this`atoms, this`bundle, this`molecularHash, this`isSigned, (set a <- atoms)`otsFragment
      ensures Valid() && multiset(atoms) == multiset(old(atoms))
      ensures (error, Data()) == SignOutcome(c, printJson, old(Data()), bundleArg, anonymous, compressed)
      ensures isSigned == (error == Ok || old(isSigned))
    {
      hide SignOutcome, SortByIndex;
      ghost var before := Data();
      var sorted := SortAtoms(atoms);
      atoms := sorted;
      error := HashAndSign(c, kcore, printJson, bundleArg, anonymous, compressed, before);
    }

    /** sign() from the sorted atoms on. Its test that the hash is signable cannot fail: every molecular hash is. */
    method HashAndSign(c: Crypto, kcore: Kcore, printJson: Json -> string, bundleArg: Text, anonymous: bool,
                       compressed: bool, ghost before: MoleculeData)
      returns (error: Error)
      requires Valid() && c.Valid() && Honest(c, kcore) && secret.Some? && atoms != []
      requires before.atoms != [] && Data() == before.(atoms := SortByIndex(before.atoms))
      modifies this`bundle, this`molecularHash, this`isSigned, (set a <- atoms)`otsFragment
      ensures (error, Data()) == SignOutcome(c, printJson, before, bundleArg, anonymous, compressed)
      ensures isSigned == (error == Ok || old(isSigned))
    {
      hide SignedMolecule, MolecularHash, SigningKey, SignatureText, Fragmented, SigningBundle, SignOutcome, SortByIndex;
      ghost var sorted := DataOf(atoms);
      var bundled := BundleAndHash(c, printJson, bundleArg, anonymous, before.atoms);
      if !bundled {
        OutcomeWithoutBundle(c, printJson, before, bundleArg, anonymous, compressed);
        return CryptoError;
      }
      ghost var b := bundle;
      var hash := molecularHash.value;
      error := SignSorted(c, kcore, hash, compressed, sorted);
      OutcomeAfterBundle(c, printJson, before, bundleArg, anonymous, compressed, b, hash, error, DataOf(atoms));
      assert Data() == before.(bundle := b, molecularHash := Some(hash), atoms := DataOf(atoms));
    }

    method BundleAndHash(c: Crypto, printJson: Json -> string, bundleArg: Text, anonymous: bool,
                         ghost unsorted: seq<AtomData>)
      returns (ok: bool)
      requires Valid() && c.Valid() && secret.Some? && atoms != [] && DataOf(atoms) == SortByIndex(unsorted)
      modifies this`bundle, this`molecularHash
      ensures ok <==> SigningBundle(c, secret.value, old(bundle), bundleArg, anonymous).Some?
      ensures ok ==> SigningBundle(c, secret.value, old(bundle), bundleArg, anonymous) == Some(bundle)
      ensures ok ==> molecularHash == Some(MolecularHash(c, printJson, unsorted))
      ensures !ok ==> bundle == old(bundle) && molecularHash == old(molecularHash)
    {
      hide MolecularHash, SigningBundle, SortByIndex;
      ok := DeriveBundle(c, bundleArg, anonymous);
      if ok {
        SortedHash(c, printJson, unsorted);
        var error := GenerateHash(c, printJson);
      }
    }

    /** check_ots. */
    method CheckSignature(c: Crypto, kcore: Kcore) returns (error: Error)
      requires c.Valid() && Honest(c, kcore) && CStrings(FragmentsOf(DataOf(atoms)))
      ensures error == CheckOts(c, molecularHash, old(DataOf(atoms)))
    {
      var signable := HashIsSignable(molecularHash);
      if !signable {
        return SignatureMalformed;
      }
      ghost var data := DataOf(atoms);
      RebuiltHasNoNul(FragmentsOf(data));
      var ots := RebuildSignature(atoms);
      var sig := DecodeSignature(ots);
      if sig.None? {
        return SignatureMalformed;
      }
      var address := ResolveSignature(c, kcore, sig.value, molecularHash.value);
      assert DataOf(atoms) == data;
      if |atoms| == 0 || atoms[0].walletAddress != Some(address) {
        return SignatureMismatch;
      }
      return Ok;
    }

    /** The wallet members of knishio_molecule_to_json; asDouble is the number %.1f prints. */
    function Trailer(asDouble: real -> Double): (wallets: seq<(string, Json)>)
      reads this, if sourceWallet == null then {} else {sourceWallet}
      reads if remainderWallet == null then {} else {remainderWallet}
      ensures IsTrailer(wallets)
    {
      (if sourceWallet == null then [] else [("sourceWallet", WalletJson(sourceWallet, asDouble))]) +
      (if remainderWallet == null then [] else [("remainderWallet", WalletJson(remainderWallet, asDouble))])
    }

    /** knishio_molecule_to_json. */
    method ToJson(asDouble: real -> Double) returns (json: Json)
      ensures json == MoleculeToJson(Data(), Trailer(asDouble))
    {
      var items := AtomItems(atoms);
      var members := HeaderMembers(Data(), items);
      json := JObj(members + Trailer(asDouble));
    }

    /** The atoms loop of knishio_molecule_from_json: add_atom numbers them, the sender's index is put back. */
    method AddParsedAtoms(items: seq<Json>) returns (error: Error)
      requires Valid() && atoms == []
      modifies this`atoms, this`atomCapacity, this`molecularHash, this`isSigned, this`isVerified
      ensures Valid() && fresh(set a <- atoms) && (old(!isSigned) ==> !isSigned)
      ensures match ReadAtoms(items)
              case Failure(e) => error == e
              case Success(data) => error == Ok && DataOf(atoms) == data
    {
      assert items[..0] == [];
      for i := 0 to |items|
        invariant Valid() && fresh(set a <- atoms) && (old(!isSigned) ==> !isSigned)
        invariant ReadAtoms(items[..i]) == Success(DataOf(atoms))
      {
        ReadAtomsFails(items, i + 1);
        ghost var added;
        error, added := AddParsed(items, i);
        if error != Ok {
          return error;
        }
      }
      assert items[..|items|] == items;
      return Ok;
    }

    /** One atom of the array. */
    method AddParsed(items: seq<Json>, i: nat) returns (error: Error, ghost added: Atom?)
      requires Valid() && i < |items| && ReadAtoms(items[..i]) == Success(DataOf(atoms))
      modifies this`atoms, this`atomCapacity, this`molecularHash, this`isSigned, this`isVerified
      ensures Valid() && (old(!isSigned) ==> !isSigned)
      ensures error != Ok ==> atoms == old(atoms)
      ensures error == Ok ==> added != null && fresh(added) && atoms == old(atoms) + [added]
      ensures match ReadAtoms(items[..i + 1])
              case Failure(e) => error == e != Ok
              case Success(data) => error == Ok && DataOf(atoms) == data
    {
      hide ReadAtoms, AtomFromJson, Distinct;
      ghost var before := DataOf(atoms);
      ReadAtomsNext(items, i, before);
      var atom: Atom?;
      error, atom := Atom.FromJson(items[i]);
      added := atom;
      if error == Ok {
        assert DataOf(atoms) == before;
        error := AddIndexed(atom);
      }
    }

    /** Adding an atom under its own index. */
    method AddIndexed(atom: Atom) returns (error: Error)
      requires Valid() && atom !in atoms && atom.index >= 0
      modifies this`atoms, this`atomCapacity, this`molecularHash, this`isSigned, this`isVerified, atom`index
      ensures Valid()
      ensures error == if |old(atoms)| < MAX_ATOMS then Ok else InvalidArgs
      ensures error != Ok ==> unchanged(this) && unchanged(atom)
      ensures old(!isSigned) ==> !isSigned
      ensures error == Ok ==> atoms == old(atoms) + [atom] && DataOf(atoms) == old(DataOf(atoms)) + [old(atom.Data())]
    {
      var index := atom.index;
      error := AddAtom(atom);
      if error == Ok {
        error := atom.SetIndex(index);
      }
    }

    /** knishio_molecule_from_json on a parsed tree. */
    static method FromJson(json: Json) returns (error: Error, molecule: Molecule?)
      ensures match MoleculeFromJson(json)
              case Failure(e) => error == e && molecule == null
              case Success(data) =>
                error == Ok && molecule != null && fresh(molecule) && molecule.Valid() && molecule.Data() == data &&
                !molecule.isSigned && fresh(set a <- molecule.atoms)
    {
      var atomsItem := Member(json, "atoms");
      var hash, bundle := OptionalString(json, "molecularHash"), OptionalString(json, "bundle");
      var cellSlug, version := OptionalString(json, "cellSlug"), OptionalString(json, "version");
      var createdAt := OptionalString(json, "createdAt");
      if !json.JObj? || hash.Failure? || bundle.Failure? || cellSlug.Failure? || version.Failure? ||
         createdAt.Failure? || atomsItem.None? || !atomsItem.value.JArr? {
        return InvalidJson, null;
      }
      var h := Header(hash.value, bundle.value, cellSlug.value, version.value, createdAt.value, atomsItem.value.items);
      assert ReadHeader(json) == Success(h);
      error, molecule := Build(h);
    }

    static method Build(h: Header) returns (error: Error, molecule: Molecule?)
      ensures match BuildMolecule(h)
              case Failure(e) => error == e && molecule == null
              case Success(data) =>
                error == Ok && molecule != null && fresh(molecule) && molecule.Valid() && molecule.Data() == data &&
                !molecule.isSigned && fresh(set a <- molecule.atoms)
    {
      var createdMs: Option<int> := Some(0);
      if h.createdAt.Some? {
        createdMs := ReadMillis(h.createdAt.value);
      }
      if createdMs.None? {
        return InvalidJson, null;
      }
      error, molecule := Molecule.WithParsedAtoms(h.bundle, h.cellSlug, h.version, h.items);
      ReadAtomsErrors(h.items);
      if error == Ok {
        molecule.SetHeader(h.molecularHash, createdMs.value);
      }
    }

    /** knishio_molecule_create and the atoms. */
    static method WithParsedAtoms(bundle: Text, cellSlug: Text, version: Text, items: seq<Json>)
      returns (error: Error, molecule: Molecule?)
      ensures match ReadAtoms(items)
              case Failure(e) => error == e && (error != Ok ==> molecule == null)
              case Success(data) =>
                error == Ok && molecule != null && fresh(molecule) && molecule.Valid() && !molecule.isSigned &&
                fresh(set a <- molecule.atoms) &&
                molecule.Data() == MoleculeData(None, bundle, molecule.molecularHash, cellSlug, version,
                                                molecule.createdAt, None, data)
    {
      ReadAtomsErrors(items);
      molecule := new Molecule(None, bundle, null, null, cellSlug, version, 0);
      error := molecule.AddParsedAtoms(items);
      if error != Ok {
        molecule := null;
      }
    }

    /** Set last, as adding an atom voids the hash. */
    method SetHeader(hash: Text, createdMs: int)
      modifies this`molecularHash, this`createdAt
      ensures molecularHash == hash && createdAt == createdMs / 1000
    {
      molecularHash := hash;
      createdAt := createdMs / 1000;
    }
  }

  /** The hexadecimal signature behind the rebuilt text; the decoded length decides. */
  method DecodeSignature(ots: string) returns (sig: Text)
    requires NUL !in ots
    ensures sig == DecodedSignature(ots) && (sig.Some? ==> NUL !in sig.value)
  {
    if |ots| != 2048 && |ots| != 8192 {
      var hexOts := Base64ToHex(ots);
      if hexOts.None? {
        return None;
      }
      DecodedHasNoNul(ots);
      if |hexOts.value| != 2048 && |hexOts.value| != 8192 {
        return None;
      }
      return hexOts;
    }
    return Some(ots);
  }

  /** Atoms with a text distributed over them. */
  function Fragmented(atoms: seq<AtomData>, text: string): (result: seq<AtomData>)
    requires atoms != []
    ensures |result| == |atoms|
  {
    WithFragments(atoms, Distributed(text, FragmentsOf(atoms)))
  }

  function KeyError(c: Crypto, secret: string, sorted: seq<AtomData>, sourceOts: Option<int>): Error
    requires sorted != []
  {
    if sorted[0].position.None? then InvalidArgs
    else if SigningKey(c, secret, sorted, sourceOts).None? then CryptoError
    else Ok
  }

  /** The signature as text. */
  method ComputeText(c: Crypto, kcore: Kcore, key: string, hash: string, compressed: bool) returns (text: string)
    requires c.Valid() && Honest(c, kcore) && IsKeyLength(|key|) && IsNumeral(16, key) && IsSignable(hash)
    ensures text == SignatureText(c, key, hash, compressed)
  {
    text := ComputeSignature(c, kcore, key, hash);
    AdvancedShape(c, key, SignCounts(hash, |key| / CHUNK));
    if compressed {
      var base64 := HexToBase64(text);
      text := base64.value;
    }
  }

  /** The outcome once the bundle is settled. */
  lemma {:induction false} OutcomeAfterBundle(c: Crypto, printJson: Json -> string, m: MoleculeData, bundle: Text,
                                              anonymous: bool, compressed: bool, b: Text, hash: string,
                                              error: Error, after: seq<AtomData>)
    requires c.Valid() && m.secret.Some? && m.atoms != []
    requires SigningBundle(c, m.secret.value, m.bundle, bundle, anonymous) == Some(b)
    requires hash == MolecularHash(c, printJson, m.atoms)
    requires error == KeyError(c, m.secret.value, SortByIndex(m.atoms), m.sourceOts)
    requires error != Ok ==> after == SortByIndex(m.atoms)
    requires error == Ok ==>
               after == Fragmented(SortByIndex(m.atoms),
                 SignatureText(c, SigningKey(c, m.secret.value, SortByIndex(m.atoms), m.sourceOts).value, hash, compressed))
    ensures SignOutcome(c, printJson, m, bundle, anonymous, compressed)
         == (error, m.(bundle := b, molecularHash := Some(hash), atoms := after))
  {
  }

  lemma {:induction false} OutcomeWithoutBundle(c: Crypto, printJson: Json -> string, m: MoleculeData, bundle: Text,
                                                anonymous: bool, compressed: bool)
    requires c.Valid() && m.secret.Some? && m.atoms != []
    requires SigningBundle(c, m.secret.value, m.bundle, bundle, anonymous) == None
    ensures SignOutcome(c, printJson, m, bundle, anonymous, compressed)
         == (CryptoError, m.(atoms := SortByIndex(m.atoms)))
  {
  }

  lemma {:induction false} DecodedHasNoNul(s: string)
    requires Base64ToHex(s).Some?
    ensures NUL !in Base64ToHex(s).value
  {
    HexTextHasNoNul(Decode(s).value);
  }

  lemma {:induction false} HexTextHasNoNul(bytes: seq<uint8>)
    ensures NUL !in HexText(bytes)
  {
    if bytes != [] {
      HexTextHasNoNul(bytes[..|bytes| - 1]);
    }
  }

  method AtomItems(atoms: seq<Atom>) returns (items: seq<Json>)
    ensures items == AtomsToJson(DataOf(atoms))
  {
    items := [];
    ghost var data := DataOf(atoms);
    for i := 0 to |atoms|
      invariant |items| == i && forall k :: 0 <= k < i ==> items[k] == AtomToJson(data[k])
    {
      var item := atoms[i].ToJson();
      items := items + [item];
    }
  }

  /** The members in front of the wallets, appended one after the other. */
  method HeaderMembers(m: MoleculeData, items: seq<Json>) returns (members: seq<(string, Json)>)
    requires items == AtomsToJson(m.atoms)
    ensures members == Present(MoleculeFields(m))
  {
    HeaderPresent(m);
    hide Present, MoleculeFields, AtomsToJson, IntText;
    members := [("status", JNull)];
    members := members + [("molecularHash", if m.molecularHash.Some? then JStr(m.molecularHash.value) else JNull)];
    members := members + [("createdAt", JStr(IntText(m.createdAt * 1000)))];
    members := members + [("cellSlug", NullableString(m.cellSlug))];
    members := members + [("bundle", NullableString(m.bundle))];
    members := AppendString(members, "version", m.version);
    members := members + [("atoms", JArr(items))];
  }

  /** The members in front of the wallets. */
  lemma {:induction false} HeaderPresent(m: MoleculeData)
    ensures Present(MoleculeFields(m))
         == AppendString([("status", JNull), ("molecularHash", StringOrNull(m.molecularHash)),
                          ("createdAt", JStr(IntText(m.createdAt * 1000))),
                          ("cellSlug", StringOrNull(NonEmpty(m.cellSlug))),
                          ("bundle", StringOrNull(NonEmpty(m.bundle)))], "version", m.version)
            + [("atoms", JArr(AtomsToJson(m.atoms)))]
  {
    hide StringOrNull, IntText, AtomsToJson, NonEmpty, Present;
    PresentHeader(MoleculeFields(m));
  }

  lemma {:induction false} PresentHeader(f: seq<(string, Option<Json>)>)
    requires |f| == 7 && forall i :: 0 <= i < 7 && i != 5 ==> f[i].1.Some?
    ensures Present(f)
         == (var head := [(f[0].0, f[0].1.value), (f[1].0, f[1].1.value), (f[2].0, f[2].1.value),
                          (f[3].0, f[3].1.value), (f[4].0, f[4].1.value)];
             (if f[5].1.Some? then head + [(f[5].0, f[5].1.value)] else head) + [(f[6].0, f[6].1.value)])
  {
    PresentAll(f, 5);
    hide Present;
    PresentStep(f, 5);
    PresentStep(f, 6);
    assert f[..7] == f;
  }

  lemma {:induction false} PresentAll(f: seq<(string, Option<Json>)>, k: nat)
    requires k <= |f| && forall i :: 0 <= i < k ==> f[i].1.Some?
    ensures Present(f[..k]) == seq(k, i requires 0 <= i < k => (f[i].0, f[i].1.value))
  {
    if k > 0 {
      PresentAll(f, k - 1);
      PresentStep(f, k - 1);
    }
  }

  /** The first failing atom decides. */
  lemma {:induction false} ReadAtomsFails(items: seq<Json>, k: nat)
    requires k <= |items|
    ensures ReadAtoms(items[..k]).Failure? ==> ReadAtoms(items) == ReadAtoms(items[..k])
    decreases |items|
  {
    if k == |items| {
      assert items[..k] == items;
    } else {
      var front := items[..|items| - 1];
      assert front[..k] == items[..k];
      ReadAtomsFails(front, k);
    }
  }

  /** One more item read. */
  lemma {:induction false} ReadAtomsNext(items: seq<Json>, i: nat, front: seq<AtomData>)
    requires i < |items| && ReadAtoms(items[..i]) == Success(front)
    ensures AtomFromJson(items[i]).Failure? ==>
              AtomFromJson(items[i]).error == InvalidJson && ReadAtoms(items[..i + 1]) == Failure(InvalidJson)
    ensures AtomFromJson(items[i]).Success? ==>
              AtomFromJson(items[i]).value.index >= 0 &&
              ReadAtoms(items[..i + 1])
              == if |front| >= MAX_ATOMS then Failure(InvalidArgs) else Success(front + [AtomFromJson(items[i]).value])
  {
    hide ReadAtoms, AtomFromJson;
    TakeOne(items, i);
    ReadAtomsSnoc(items[..i], items[i]);
    IndexNotNegative(items[i]);
  }

  lemma {:induction false} IndexNotNegative(json: Json)
    ensures AtomFromJson(json).Success? ==> AtomFromJson(json).value.index >= 0
    ensures AtomFromJson(json).Failure? ==> AtomFromJson(json).error == InvalidJson
  {
    ReadScalarsNoMeta(json);
    if ReadScalars(json).Success? {
      ReadMetasErrors(MetaEntries(json), ReadScalars(json).value.version.Some?);
    }
  }

  lemma {:induction false} ReadAtomsErrors(items: seq<Json>)
    ensures ReadAtoms(items).Failure? ==> ReadAtoms(items).error != Ok
  {
    if items != [] {
      ReadAtomsErrors(items[..|items| - 1]);
      IndexNotNegative(items[|items| - 1]);
    }
  }
}
