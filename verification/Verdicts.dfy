/**
 What signing answers and what the check then says, by the version the source wallet carries
 and from the molecule's own fields (src/molecule.c:278-575, 871-1095,
 src/libraries/check_molecule.c:202-358).
 */
module Verdicts {
  import opened Basics
  import opened Digits
  import opened Decimal
  import opened Base17
  import opened Chains
  import opened ChainRunner
  import opened Atoms
  import opened AtomJson
  import opened Hashing
  import opened Fragments
  import opened Signing

  /** The wallet's own version; 1 for a wallet that says 0, and without a wallet. */
  predicate IsVersion(sourceOts: Option<int>, version: int) {
    match sourceOts
    case None => version == 1
    case Some(0) => version == 1
    case Some(own) => version == own
  }

  /** Secret and position have a sum, and the version is one there are keys of. */
  predicate HasKey(c: Crypto, secret: string, position: string, version: int) {
    (version == 1 || version == 2) && secret != "" && position != "" &&
    c.addHex(if IsStrictHex(secret) then secret else c.shake(secret, 1024),
             if IsStrictHex(position) then position else c.shake(position, 256)).Some?
  }

  /** What sign() answers, check by check. */
  lemma {:induction false} SignAnswers(c: Crypto, printJson: Json -> string, m: MoleculeData, bundle: Text,
                                       anonymous: bool, compressed: bool, version: int)
    requires c.Valid() && IsVersion(m.sourceOts, version)
    ensures SignOutcome(c, printJson, m, bundle, anonymous, compressed).0
         == if m.secret.None? then InvalidArgs
            else if m.atoms == [] then AtomsMissing
            else if !anonymous && m.bundle.None? && bundle.None? &&
                    !(|m.secret.value| == 2048 && IsStrictHex(m.secret.value)) then CryptoError
            else
              match SortByIndex(m.atoms)[0].position
              case None => InvalidArgs
              case Some(position) => if HasKey(c, m.secret.value, position, version) then Ok else CryptoError
  {
    hide SignedMolecule, MolecularHash, SortByIndex;
  }

  /**
   What a successful sign() leaves: the atoms in index order with new fragments only, the bundle
   it had, was given or derived unless it stays anonymous, the hash, and all else as it was.
   */
  lemma {:induction false} SignLeaves(c: Crypto, printJson: Json -> string, m: MoleculeData, bundle: Text,
                                      anonymous: bool, compressed: bool)
    requires c.Valid() && SignOutcome(c, printJson, m, bundle, anonymous, compressed).0 == Ok
    ensures m.secret.Some? && m.atoms != []
    ensures var after, sorted := SignOutcome(c, printJson, m, bundle, anonymous, compressed).1, SortByIndex(m.atoms);
            after.bundle == (if anonymous || m.bundle.Some? then m.bundle
                             else if bundle.Some? then bundle else Some(c.shake(m.secret.value, 256))) &&
            after.molecularHash == Some(MolecularHash(c, printJson, after.atoms)) &&
            after.(bundle := m.bundle, molecularHash := m.molecularHash, atoms := m.atoms) == m &&
            |after.atoms| == |sorted| &&
            forall i :: 0 <= i < |sorted| ==> after.atoms[i] == sorted[i].(otsFragment := after.atoms[i].otsFragment)
  {
    var sorted := SortByIndex(m.atoms);
    var key := SigningKey(c, m.secret.value, sorted, m.sourceOts).value;
    var text := SignatureText(c, key, MolecularHash(c, printJson, m.atoms), compressed);
    SigningKeepsHash(c, printJson, m.atoms, Distributed(text, FragmentsOf(sorted)));
    hide MolecularHash, SortByIndex, Distributed, SignatureText;
  }

  /** The key of an atom's token and position at a version. */
  function KeyOf(c: Crypto, secret: string, atom: AtomData, version: int): (key: Text)
    requires c.Valid()
    ensures key.Some? ==> |key.value| == (if version == 2 then 8192 else 2048) && |key.value| % CHUNK == 0
  {
    if atom.position.None? then None else WalletKey(c, secret, atom.token, atom.position.value, version)
  }

  /** Written as JSON and read back, the molecule passes the check if and only if this is the address of the key. */
  ghost predicate PassesFor(c: Crypto, m: MoleculeData, wallets: seq<(string, Json)>, key: Text, address: Text)
    requires key.Some? ==> |key.value| % CHUNK == 0
  {
    var parsed := MoleculeFromJson(MoleculeToJson(m, wallets));
    key.Some? && parsed.Success? &&
    (CheckOts(c, parsed.value.molecularHash, parsed.value.atoms) == Ok <==> address == Some(Address(c, key.value)))
  }

  /**
   Sign, serialise, parse, hash again, resolve, for a source wallet of a version and atoms without
   earlier fragments: the parsed molecule passes if and only if the lowest-index atom carries the
   address of the key its token and position give at that version.
   */
  lemma {:induction false} SignedAtVersion(c: Crypto, printJson: Json -> string, m: MoleculeData, bundle: Text,
                                           anonymous: bool, compressed: bool, wallets: seq<(string, Json)>, version: int)
    requires c.Valid() && m.secret.Some? && m.atoms != []
    requires SignOutcome(c, printJson, m, bundle, anonymous, compressed).0 == Ok
    requires IsVersion(m.sourceOts, version) && |m.atoms| <= MAX_ATOMS && IsTrailer(wallets)
    requires Carried(m.atoms) && FitsMillis(m.createdAt * 1000) && NoFragments(FragmentsOf(SortByIndex(m.atoms)))
    ensures var first := SortByIndex(m.atoms)[0];
            PassesFor(c, SignOutcome(c, printJson, m, bundle, anonymous, compressed).1, wallets,
                      KeyOf(c, m.secret.value, first, version), first.walletAddress)
  {
    UnsignedSurvives(m.atoms, m.sourceOts, compressed);
    SignOutcomeEndToEnd(c, printJson, m, bundle, anonymous, compressed, wallets);
    KeyAtVersion(c, m.secret.value, SortByIndex(m.atoms), m.sourceOts, version);
  }

  lemma {:induction false} KeyAtVersion(c: Crypto, secret: string, sorted: seq<AtomData>, sourceOts: Option<int>,
                                        version: int)
    requires c.Valid() && sorted != [] && IsVersion(sourceOts, version) && SigningKey(c, secret, sorted, sourceOts).Some?
    ensures (version == 1 || version == 2) && sorted[0].position.Some?
    ensures SigningKey(c, secret, sorted, sourceOts)
         == WalletKey(c, secret, sorted[0].token, sorted[0].position.value, version)
    ensures |SigningKey(c, secret, sorted, sourceOts).value| == if version == 2 then 8192 else 2048
  {
  }

  /** Its plain signature has 128 characters for each of 64 chains at version 2, and of 16 at version 1. */
  lemma {:induction false} SignatureAtVersion(c: Crypto, printJson: Json -> string, m: MoleculeData, bundle: Text,
                                              anonymous: bool, version: int)
    requires c.Valid() && SignOutcome(c, printJson, m, bundle, anonymous, false).0 == Ok
    requires IsVersion(m.sourceOts, version) && NoFragments(FragmentsOf(SortByIndex(m.atoms)))
    ensures version == 1 || version == 2
    ensures |Rebuilt(FragmentsOf(SignOutcome(c, printJson, m, bundle, anonymous, false).1.atoms))|
         == if version == 2 then 8192 else 2048
  {
    var sorted := SortByIndex(m.atoms);
    var key := SigningKey(c, m.secret.value, sorted, m.sourceOts).value;
    KeyAtVersion(c, m.secret.value, sorted, m.sourceOts, version);
    hide MolecularHash, SortByIndex, Distributed, Rebuilt, SignatureText, WithFragments;
    PlainPieces(c, sorted, key, MolecularHash(c, printJson, m.atoms));
  }

  /** A plain signature is as long as its key. */
  lemma {:induction false} PlainPieces(c: Crypto, sorted: seq<AtomData>, key: string, hash: string)
    requires c.Valid() && sorted != [] && IsKeyLength(|key|) && IsNumeral(16, key) && IsSignable(hash)
    requires NoFragments(FragmentsOf(sorted))
    ensures var pieces := Distributed(SignatureText(c, key, hash, false), FragmentsOf(sorted));
            |Rebuilt(FragmentsOf(WithFragments(sorted, pieces)))| == |key|
  {
    var text := SignatureText(c, key, hash, false);
    AdvancedShape(c, key, SignCounts(hash, |key| / CHUNK));
    hide Distributed, Rebuilt, Advanced, SignatureText;
    FragmentRoundTrip(text, FragmentsOf(sorted));
    var pieces := Distributed(text, FragmentsOf(sorted));
    assert FragmentsOf(WithFragments(sorted, pieces)) == pieces;
  }

  // ---------------------------------------------------------------- the molecule's JSON

  /** An optional text after a trip: an empty one becomes NULL. */
  function Arrives(t: Text): Text {
    if t == Some("") then None else t
  }

  /**
   The trip of a molecule, member by member: accepted exactly when its time can be written and
   every atom is accepted alone, and then every atom arrives in its place as it would alone.
   */
  lemma {:induction false} MoleculeTrip(m: MoleculeData, wallets: seq<(string, Json)>)
    requires IsTrailer(wallets) && |m.atoms| <= 256
    ensures var read := MoleculeFromJson(MoleculeToJson(m, wallets));
            (read.Success? <==>
               FitsMillis(m.createdAt * 1000) &&
               forall i :: 0 <= i < |m.atoms| ==> AtomFromJson(AtomToJson(m.atoms[i])).Success?) &&
            (read.Success? ==>
               var r := read.value;
               r.molecularHash == m.molecularHash && r.version == m.version && r.createdAt == m.createdAt &&
               r.bundle == Arrives(m.bundle) && r.cellSlug == Arrives(m.cellSlug) &&
               r.secret.None? && r.sourceOts.None? && |r.atoms| == |m.atoms| &&
               forall i :: 0 <= i < |m.atoms| ==> AtomFromJson(AtomToJson(m.atoms[i])) == Success(r.atoms[i]))
  {
    MoleculeRoundTrip(m, wallets);
    hide MoleculeFromJson, MoleculeToJson, AtomFromJson, AtomToJson, Representable, Canon, FitsMillis;
    forall i | 0 <= i < |m.atoms|
      ensures AtomFromJson(AtomToJson(m.atoms[i]))
           == if Representable(m.atoms[i]) then Success(CanonAll(m.atoms)[i]) else Failure(InvalidJson)
    {
      JsonRoundTrip(m.atoms[i]);
    }
  }

  /** The molecule's wire form, name by name: the time in milliseconds, empty texts as null. */
  lemma {:induction false} MoleculeWire(m: MoleculeData, wallets: seq<(string, Json)>)
    requires IsTrailer(wallets)
    ensures var j := MoleculeToJson(m, wallets);
            OptionalString(j, "molecularHash") == Success(m.molecularHash) &&
            OptionalString(j, "bundle") == Success(Arrives(m.bundle)) &&
            OptionalString(j, "cellSlug") == Success(Arrives(m.cellSlug)) &&
            OptionalString(j, "version") == Success(m.version) &&
            Member(j, "createdAt") == Some(JStr(IntText(m.createdAt * 1000))) &&
            Member(j, "atoms").Some? && Member(j, "atoms").value.JArr? &&
            |Member(j, "atoms").value.items| == |m.atoms| &&
            forall i :: 0 <= i < |m.atoms| ==> Member(j, "atoms").value.items[i] == AtomToJson(m.atoms[i])
  {
    MoleculeFieldsRead(m, wallets);
    MoleculeTime(m, wallets);
    hide MoleculeToJson, AtomToJson, OptionalString, Member, IntText;
  }

  lemma {:induction false} MoleculeTime(m: MoleculeData, wallets: seq<(string, Json)>)
    requires IsTrailer(wallets)
    ensures Member(MoleculeToJson(m, wallets), "createdAt") == Some(JStr(IntText(m.createdAt * 1000)))
  {
    var f, members := MoleculeFields(m), Present(MoleculeFields(m));
    MoleculeNamesDistinct(m);
    hide Present, Lookup, DistinctNames, IntText, AtomsToJson, IsTrailer;
    LookupPresent(f, 2);
    LookupTrailer(members, wallets, f[2].0);
  }
}
