/**
 Signing, the molecule's JSON and the verifier's signature check as functions on values,
 and the theorem that joins them: sign, serialise, parse, hash again, resolve
 (src/molecule.c:288-575, 762-1095, src/libraries/check_molecule.c:155-358).
 */
module Signing {
  import opened Basics
  import opened Digits
  import opened Decimal
  import opened Base17
  import opened Chains
  import opened ChainRunner
  import opened Base64
  import opened Atoms
  import opened AtomJson
  import opened Hashing
  import opened Fragments

  const MAX_ATOMS: nat := 256
  const SECRET_LENGTH: nat := 2048

  /** The molecular hash of a list of atoms. */
  function MolecularHash(c: Crypto, printJson: Json -> string, atoms: seq<AtomData>): (hash: string)
    requires c.Valid()
    ensures IsSignable(hash)
  {
    ToBase17(c.shake(HashedText(printJson, atoms), 256))
  }

  /** sourceOts is the source wallet's OTS version, None without a source wallet. */
  datatype MoleculeData = MoleculeData(
    secret: Text,
    bundle: Text,
    molecularHash: Text,
    cellSlug: Text,
    version: Text,
    createdAt: int,
    sourceOts: Option<int>,
    atoms: seq<AtomData>)

  /** signing_ots_version. */
  function SigningVersion(sourceOts: Option<int>): int {
    if sourceOts.None? || sourceOts.value == 0 then 1 else sourceOts.value
  }

  /** The key that signs sorted atoms: the first atom's token and position. */
  function SigningKey(c: Crypto, secret: string, sorted: seq<AtomData>, sourceOts: Option<int>): (key: Text)
    requires sorted != []
    ensures c.Valid() && key.Some? ==> IsKeyLength(|key.value|) && IsNumeral(16, key.value)
  {
    if sorted[0].position.None? then None
    else WalletKey(c, secret, sorted[0].token, sorted[0].position.value, SigningVersion(sourceOts))
  }

  function FragmentsOf(atoms: seq<AtomData>): (fragments: seq<Text>)
    ensures |fragments| == |atoms|
  {
    seq(|atoms|, i requires 0 <= i < |atoms| => atoms[i].otsFragment)
  }

  function WithFragments(atoms: seq<AtomData>, fragments: seq<Text>): (result: seq<AtomData>)
    requires |fragments| == |atoms|
    ensures |result| == |atoms|
  {
    seq(|atoms|, i requires 0 <= i < |atoms| => atoms[i].(otsFragment := fragments[i]))
  }

  /** The signature as it is distributed: hexadecimal, or base64 when compressed. */
  ghost function SignatureText(c: Crypto, key: string, hash: string, compressed: bool): string
    requires c.Valid() && IsKeyLength(|key|) && IsNumeral(16, key) && IsSignable(hash)
  {
    AdvancedShape(c, key, SignCounts(hash, |key| / CHUNK));
    var sig := Signature(c, key, hash);
    if compressed then HexToBase64(sig).value else sig
  }

  /** The atoms after a successful signing. */
  ghost function SignedAtoms(c: Crypto, printJson: Json -> string, secret: string, atoms: seq<AtomData>,
                             sourceOts: Option<int>, compressed: bool): (signed: seq<AtomData>)
    requires c.Valid() && atoms != []
    requires SigningKey(c, secret, SortByIndex(atoms), sourceOts).Some?
    ensures |signed| == |atoms|
  {
    var sorted := SortByIndex(atoms);
    var key := SigningKey(c, secret, sorted, sourceOts).value;
    var text := SignatureText(c, key, MolecularHash(c, printJson, atoms), compressed);
    WithFragments(sorted, Distributed(text, FragmentsOf(sorted)))
  }

  // ---------------------------------------------------------------- the verifier

  /** The signature behind a rebuilt text: itself at a key's length, else its base64 decoding. */
  function DecodedSignature(ots: string): (sig: Text)
    ensures sig.Some? ==> IsKeyLength(|sig.value|) && |sig.value| % CHUNK == 0 && |sig.value| / CHUNK <= HASH_LENGTH
  {
    if IsKeyLength(|ots|) then Some(ots)
    else
      var hex := Base64ToHex(ots);
      if hex.Some? && IsKeyLength(|hex.value|) then hex else None
  }

  /** check_ots. */
  ghost function CheckOts(c: Crypto, hash: Text, atoms: seq<AtomData>): Error {
    if hash.None? || !IsSignable(hash.value) then SignatureMalformed
    else
      var sig := DecodedSignature(Rebuilt(FragmentsOf(atoms)));
      if sig.None? then SignatureMalformed
      else if atoms != [] && atoms[0].walletAddress == Some(Resolved(c, sig.value, hash.value)) then Ok
      else SignatureMismatch
  }

  lemma {:induction false} NumeralHasNoPad(s: string)
    requires IsNumeral(16, s)
    ensures '=' !in s
  {
    assert DigitOf('=') == NOT_A_DIGIT;
  }

  /** Characters of a signature, by OTS version and form. */
  function SignatureLength(sourceOts: Option<int>, compressed: bool): nat {
    if SigningVersion(sourceOts) == 2 then (if compressed then 5464 else 8192)
    else if compressed then 1368 else 2048
  }

  /**
   The verifier still reads a signature of this length when this text follows it: nothing may
   follow a plain one; behind the padding of a compressed one whole groups may, unless the
   whole is as long as a plain signature.
   */
  predicate Legible(length: nat, compressed: bool, stale: string) {
    if compressed then |stale| % 4 == 0 && !IsKeyLength(length + |stale|) else stale == ""
  }

  lemma {:induction false} CompressedReads(sig: string, stale: string)
    requires IsKeyLength(|sig|) && IsNumeral(16, sig)
    ensures HexToBase64(sig).Some? && |HexToBase64(sig).value| == if |sig| == 2048 then 1368 else 5464
    ensures var text := HexToBase64(sig).value;
            DecodedSignature(text + stale) == Some(sig) <==> Legible(|text|, true, stale)
  {
    var n := |sig| / 2;
    var bytes := BytesOf(sig, n);
    var text := Encode(bytes);
    assert (n == 1024 || n == 4096) && (1024 + 2) / 3 == 342 && (4096 + 2) / 3 == 1366;
    HexTextOfBytes(sig, n);
    assert sig[..2 * n] == sig;
    PaddedTail(bytes, stale);
    if IsKeyLength(|text + stale|) {
      BodyRoundTrip(bytes);
      NumeralHasNoPad(sig);
      assert (text + stale)[|text| - 1] == '=';
    }
  }

  lemma {:induction false} PlainReads(sig: string, stale: string)
    requires IsKeyLength(|sig|) && IsNumeral(16, sig)
    ensures DecodedSignature(sig + stale) == Some(sig) <==> stale == ""
  {
    AppendsNothing(sig, stale);
    NumeralHasNoPad(sig);
    if stale != "" {
      PlainTail(sig, stale);
    }
  }

  /** Whichever form it took, the text is read as the signature exactly when it is legible. */
  lemma {:induction false} SignatureReads(c: Crypto, key: string, hash: string, compressed: bool, stale: string)
    requires c.Valid() && IsKeyLength(|key|) && IsNumeral(16, key) && IsSignable(hash)
    ensures var text := SignatureText(c, key, hash, compressed);
            |text| == (if |key| == 8192 then (if compressed then 5464 else 8192) else if compressed then 1368 else 2048) &&
            (DecodedSignature(text + stale) == Some(Signature(c, key, hash)) <==> Legible(|text|, compressed, stale))
  {
    var sig := Signature(c, key, hash);
    AdvancedShape(c, key, SignCounts(hash, |key| / CHUNK));
    hide DecodedSignature, Legible, Signature, HexToBase64;
    CompressedReads(sig, stale);
    PlainReads(sig, stale);
    assert !compressed ==> (Legible(|sig|, compressed, stale) <==> stale == "") by {
      PlainLegible(|sig|, stale);
    }
  }

  lemma {:induction false} PlainLegible(length: nat, stale: string)
    ensures Legible(length, false, stale) <==> stale == ""
  {
  }

  /** What is left of earlier fragments behind a new signature. */
  function StaleBehind(atoms: seq<AtomData>, sourceOts: Option<int>, compressed: bool): string
    requires atoms != []
  {
    StaleText(SignatureLength(sourceOts, compressed), FragmentsOf(SortByIndex(atoms)))
  }

  /** The verifier will read the new signature, whatever fragments these atoms hold. */
  predicate Survives(atoms: seq<AtomData>, sourceOts: Option<int>, compressed: bool)
    requires atoms != []
  {
    Legible(SignatureLength(sourceOts, compressed), compressed, StaleBehind(atoms, sourceOts, compressed))
  }

  lemma {:induction false} UnsignedSurvives(atoms: seq<AtomData>, sourceOts: Option<int>, compressed: bool)
    requires atoms != [] && NoFragments(FragmentsOf(SortByIndex(atoms)))
    ensures Survives(atoms, sourceOts, compressed)
  {
    NothingStale(SignatureLength(sourceOts, compressed), FragmentsOf(SortByIndex(atoms)));
  }

  /** Signed plainly and then compressed, 47 atoms keep a legible signature and 90 do not. */
  lemma {:induction false} SecondSigning(other: string, few: seq<Text>, many: seq<Text>)
    requires |other| == 2048 && |few| == 47 && |many| == 90
    ensures Legible(1368, true, StaleText(1368, Distributed(other, few)))
    ensures !Legible(1368, true, StaleText(1368, Distributed(other, many)))
  {
    StaleQuads(other, few);
    StaleFragments(seq(1368, _ => ' '), other, many);
  }

  /** The text the verifier puts together from freshly signed atoms. */
  ghost function ReadText(c: Crypto, printJson: Json -> string, secret: string, atoms: seq<AtomData>,
                          sourceOts: Option<int>, compressed: bool): string
    requires c.Valid() && atoms != [] && SigningKey(c, secret, SortByIndex(atoms), sourceOts).Some?
  {
    SignatureText(c, SigningKey(c, secret, SortByIndex(atoms), sourceOts).value, MolecularHash(c, printJson, atoms),
                  compressed)
    + StaleBehind(atoms, sourceOts, compressed)
  }

  /** What is read is another signature, and this is the address it resolves to. */
  ghost predicate OtherResolves(c: Crypto, key: string, hash: string, read: string, address: Text)
    requires c.Valid() && IsKeyLength(|key|) && IsNumeral(16, key) && IsSignable(hash)
  {
    match DecodedSignature(read)
    case None => false
    case Some(other) => other != Signature(c, key, hash) && address == Some(Resolved(c, other, hash))
  }

  /**
   The first atom carries the address of the signing key; or, where the signature does not
   survive, that of another signature the verifier happens to read.
   */
  ghost predicate Accepts(c: Crypto, printJson: Json -> string, secret: string, atoms: seq<AtomData>,
                          sourceOts: Option<int>, compressed: bool)
    requires c.Valid() && atoms != [] && SigningKey(c, secret, SortByIndex(atoms), sourceOts).Some?
  {
    var key, address := SigningKey(c, secret, SortByIndex(atoms), sourceOts).value, SortByIndex(atoms)[0].walletAddress;
    if Survives(atoms, sourceOts, compressed) then address == Some(Address(c, key))
    else
      OtherResolves(c, key, MolecularHash(c, printJson, atoms),
                    ReadText(c, printJson, secret, atoms, sourceOts, compressed), address)
  }

  /**
   The signature check of a freshly signed molecule, whatever fragments its atoms held. When
   the signature survives, it succeeds if and only if the first atom carries the address of
   the signing key.
   */
  lemma {:induction false} SignedChecks(c: Crypto, printJson: Json -> string, secret: string, atoms: seq<AtomData>,
                                        sourceOts: Option<int>, compressed: bool)
    requires c.Valid() && atoms != []
    requires SigningKey(c, secret, SortByIndex(atoms), sourceOts).Some?
    ensures CheckOts(c, Some(MolecularHash(c, printJson, atoms)),
                     SignedAtoms(c, printJson, secret, atoms, sourceOts, compressed))
         == if Accepts(c, printJson, secret, atoms, sourceOts, compressed) then Ok
            else if DecodedSignature(ReadText(c, printJson, secret, atoms, sourceOts, compressed)).Some? then
              SignatureMismatch
            else SignatureMalformed
  {
    var sorted := SortByIndex(atoms);
    var key := SigningKey(c, secret, sorted, sourceOts).value;
    var hash := MolecularHash(c, printJson, atoms);
    var text, stale := SignatureText(c, key, hash, compressed), StaleBehind(atoms, sourceOts, compressed);
    KeyVersion(c, secret, sorted, sourceOts);
    SignatureReads(c, key, hash, compressed, stale);
    SignatureResolves(c, key, hash);
    hide SignatureText, DecodedSignature, MolecularHash, SortByIndex, Legible, SigningKey, Distributed, Signature, StaleText;
    hide CheckOts, Rebuilt;
    PiecesCheck(c, sorted, hash, text);
  }

  lemma {:induction false} KeyVersion(c: Crypto, secret: string, sorted: seq<AtomData>, sourceOts: Option<int>)
    requires c.Valid() && sorted != [] && SigningKey(c, secret, sorted, sourceOts).Some?
    ensures |SigningKey(c, secret, sorted, sourceOts).value| == if SigningVersion(sourceOts) == 2 then 8192 else 2048
  {
  }

  /** The check of atoms a text was distributed over. */
  lemma {:induction false} PiecesCheck(c: Crypto, sorted: seq<AtomData>, hash: string, text: string)
    requires sorted != [] && IsSignable(hash)
    ensures CheckOts(c, Some(hash), WithFragments(sorted, Distributed(text, FragmentsOf(sorted))))
         == match DecodedSignature(text + StaleText(|text|, FragmentsOf(sorted)))
            case None => SignatureMalformed
            case Some(sig) =>
              if sorted[0].walletAddress == Some(Resolved(c, sig, hash)) then Ok else SignatureMismatch
  {
    hide Rebuilt, DecodedSignature, Distributed, StaleText;
    var pieces := Distributed(text, FragmentsOf(sorted));
    assert FragmentsOf(WithFragments(sorted, pieces)) == pieces;
    RebuiltDistributed(text, FragmentsOf(sorted));
  }

  lemma {:induction false} SortedHash(c: Crypto, printJson: Json -> string, atoms: seq<AtomData>)
    requires c.Valid()
    ensures MolecularHash(c, printJson, SortByIndex(atoms)) == MolecularHash(c, printJson, atoms)
  {
    SortedInput(printJson, atoms);
  }

  /** Signing changes only fragments and order, so the hash of the result is the hash signed. */
  lemma {:induction false} SigningKeepsHash(c: Crypto, printJson: Json -> string, atoms: seq<AtomData>, fragments: seq<Text>)
    requires c.Valid() && |atoms| == |fragments|
    ensures IsSorted(WithFragments(SortByIndex(atoms), fragments))
    ensures MolecularHash(c, printJson, WithFragments(SortByIndex(atoms), fragments)) == MolecularHash(c, printJson, atoms)
  {
    SortSorts(atoms);
    SortedHash(c, printJson, atoms);
    hide SortByIndex, HashedText;
    FragmentsNotHashed(printJson, SortByIndex(atoms), fragments);
  }

  lemma {:induction false} FragmentsNotHashed(printJson: Json -> string, sorted: seq<AtomData>, fragments: seq<Text>)
    requires IsSorted(sorted) && |sorted| == |fragments|
    ensures IsSorted(WithFragments(sorted, fragments))
    ensures HashedText(printJson, WithFragments(sorted, fragments)) == HashedText(printJson, sorted)
  {
    hide HashedText, AtomPreimage, AtomView, NatText;
    var signed := WithFragments(sorted, fragments);
    forall i | 0 <= i < |sorted|
      ensures AtomPreimage(sorted[i], NatText(|sorted|)) == AtomPreimage(signed[i], NatText(|sorted|))
      ensures AtomView(sorted[i]) == AtomView(signed[i])
    {
      FragmentNotHashed(sorted[i], fragments[i], NatText(|sorted|));
    }
    SortedSame(printJson, sorted, signed);
  }

  // ---------------------------------------------------------------- the molecule's JSON

  function AtomsToJson(atoms: seq<AtomData>): (items: seq<Json>)
    ensures |items| == |atoms|
  {
    seq(|atoms|, i requires 0 <= i < |atoms| => AtomToJson(atoms[i]))
  }

  function MoleculeFields(m: MoleculeData): seq<(string, Option<Json>)> {
    [("status", Some(JNull)),
     ("molecularHash", Some(StringOrNull(m.molecularHash))),
     ("createdAt", Some(JStr(IntText(m.createdAt * 1000)))),
     ("cellSlug", Some(StringOrNull(NonEmpty(m.cellSlug)))),
     ("bundle", Some(StringOrNull(NonEmpty(m.bundle)))),
     ("version", Written(m.version)),
     ("atoms", Some(JArr(AtomsToJson(m.atoms))))]
  }

  /** Members after the atoms: the wallets, which the reader ignores. */
  predicate IsTrailer(wallets: seq<(string, Json)>) {
    forall i :: 0 <= i < |wallets| ==> wallets[i].0 == "sourceWallet" || wallets[i].0 == "remainderWallet"
  }

  /** knishio_molecule_to_json. */
  function MoleculeToJson(m: MoleculeData, wallets: seq<(string, Json)>): Json {
    JObj(Present(MoleculeFields(m)) + wallets)
  }

  function ReadAtoms(items: seq<Json>): Result<seq<AtomData>> {
    if items == [] then Success([])
    else
      match ReadAtoms(items[..|items| - 1])
      case Failure(e) => Failure(e)
      case Success(front) =>
        match AtomFromJson(items[|items| - 1])
        case Failure(e) => Failure(e)
        case Success(a) => if |front| >= MAX_ATOMS then Failure(InvalidArgs) else Success(front + [a])
  }

  /** The members of a molecule object, as strings and the atoms' items. */
  datatype Header = Header(molecularHash: Text, bundle: Text, cellSlug: Text, version: Text, createdAt: Text,
                           items: seq<Json>)

  function ReadHeader(json: Json): Result<Header> {
    var hash, bundle := OptionalString(json, "molecularHash"), OptionalString(json, "bundle");
    var cellSlug, version := OptionalString(json, "cellSlug"), OptionalString(json, "version");
    var createdAt, atoms := OptionalString(json, "createdAt"), Member(json, "atoms");
    if !json.JObj? || hash.Failure? || bundle.Failure? || cellSlug.Failure? || version.Failure? ||
       createdAt.Failure? || atoms.None? || !atoms.value.JArr? then Failure(InvalidJson)
    else
      Success(Header(hash.value, bundle.value, cellSlug.value, version.value, createdAt.value, atoms.value.items))
  }

  function BuildMolecule(h: Header): Result<MoleculeData> {
    var ms := if h.createdAt.Some? then Millis(h.createdAt.value) else Some(0);
    if ms.None? then Failure(InvalidJson)
    else
      match ReadAtoms(h.items)
      case Failure(e) => Failure(e)
      case Success(atoms) =>
        Success(MoleculeData(None, h.bundle, h.molecularHash, h.cellSlug, h.version, ms.value / 1000, None, atoms))
  }

  /** knishio_molecule_from_json. */
  function MoleculeFromJson(json: Json): Result<MoleculeData> {
    match ReadHeader(json)
    case Failure(e) => Failure(e)
    case Success(h) => BuildMolecule(h)
  }

  lemma {:induction false} ReadWrittenAtoms(atoms: seq<AtomData>)
    requires |atoms| <= MAX_ATOMS
    ensures ReadAtoms(AtomsToJson(atoms))
         == if AllRepresentable(atoms) then Success(CanonAll(atoms)) else Failure(InvalidJson)
  {
    if atoms != [] {
      ReadWrittenAtoms(atoms[..|atoms| - 1]);
      ReadWrittenSnoc(atoms[..|atoms| - 1], atoms[|atoms| - 1]);
      assert atoms == atoms[..|atoms| - 1] + [atoms[|atoms| - 1]];
    }
  }

  lemma {:induction false} ReadWrittenSnoc(front: seq<AtomData>, last: AtomData)
    requires |front| < MAX_ATOMS
    requires ReadAtoms(AtomsToJson(front))
          == if AllRepresentable(front) then Success(CanonAll(front)) else Failure(InvalidJson)
    ensures ReadAtoms(AtomsToJson(front + [last]))
         == if AllRepresentable(front + [last]) then Success(CanonAll(front + [last])) else Failure(InvalidJson)
  {
    JsonRoundTrip(last);
    AllRepresentableSnoc(front, last);
    assert AtomsToJson(front + [last]) == AtomsToJson(front) + [AtomToJson(last)];
    ReadAtomsSnoc(AtomsToJson(front), AtomToJson(last));
    assert CanonAll(front + [last]) == CanonAll(front) + [Canon(last)];
  }

  predicate AllRepresentable(atoms: seq<AtomData>) {
    forall i :: 0 <= i < |atoms| ==> Representable(atoms[i])
  }

  lemma {:induction false} AllRepresentableSnoc(front: seq<AtomData>, last: AtomData)
    ensures AllRepresentable(front + [last]) <==> AllRepresentable(front) && Representable(last)
  {
    var all := front + [last];
    assert all[|front|] == last;
    assert forall i :: 0 <= i < |front| ==> all[i] == front[i];
  }

  lemma {:induction false} ReadAtomsSnoc(front: seq<Json>, last: Json)
    ensures ReadAtoms(front + [last])
         == if ReadAtoms(front).Failure? then ReadAtoms(front)
            else if AtomFromJson(last).Failure? then Failure(AtomFromJson(last).error)
            else if |ReadAtoms(front).value| >= MAX_ATOMS then Failure(InvalidArgs)
            else Success(ReadAtoms(front).value + [AtomFromJson(last).value])
  {
    assert (front + [last])[..|front|] == front;
  }

  ghost predicate MoleculeReadsAs(j: Json, m: MoleculeData) {
    j.JObj? &&
    OptionalString(j, "molecularHash") == Success(m.molecularHash) &&
    OptionalString(j, "bundle") == Success(NonEmpty(m.bundle)) &&
    OptionalString(j, "cellSlug") == Success(NonEmpty(m.cellSlug)) &&
    OptionalString(j, "version") == Success(m.version) &&
    OptionalString(j, "createdAt") == Success(Some(IntText(m.createdAt * 1000))) &&
    Member(j, "atoms") == Some(JArr(AtomsToJson(m.atoms)))
  }

  lemma {:induction false} LookupTrailer(members: seq<(string, Json)>, wallets: seq<(string, Json)>, key: string)
    requires IsTrailer(wallets) && key != "sourceWallet" && key != "remainderWallet"
    ensures Lookup(members + wallets, key) == Lookup(members, key)
  {
    if members == [] {
      assert members + wallets == wallets;
      LookupSkips(wallets, [], key);
      assert wallets + [] == wallets;
    } else {
      LookupTrailer(members[1..], wallets, key);
      assert (members + wallets)[1..] == members[1..] + wallets;
    }
  }

  lemma {:induction false} MoleculeNamesDistinct(m: MoleculeData)
    ensures DistinctNames(MoleculeFields(m))
  {
  }

  lemma {:induction false} MoleculeFieldsRead(m: MoleculeData, wallets: seq<(string, Json)>)
    requires IsTrailer(wallets)
    ensures MoleculeReadsAs(MoleculeToJson(m, wallets), m)
  {
    var f, members := MoleculeFields(m), Present(MoleculeFields(m));
    MoleculeNamesDistinct(m);
    hide Present, Lookup, DistinctNames, IntText, AtomsToJson, IsTrailer;
    LookupPresent(f, 1);
    LookupTrailer(members, wallets, f[1].0);
    LookupPresent(f, 2);
    LookupTrailer(members, wallets, f[2].0);
    LookupPresent(f, 3);
    LookupTrailer(members, wallets, f[3].0);
    LookupPresent(f, 4);
    LookupTrailer(members, wallets, f[4].0);
    LookupPresent(f, 5);
    LookupTrailer(members, wallets, f[5].0);
    LookupPresent(f, 6);
    LookupTrailer(members, wallets, f[6].0);
  }

  /** What the reader makes of a written molecule. */
  function CanonMolecule(m: MoleculeData): MoleculeData {
    m.(secret := None, sourceOts := None, bundle := NonEmpty(m.bundle), cellSlug := NonEmpty(m.cellSlug),
    atoms := CanonAll(m.atoms))
  }

  predicate RepresentableMolecule(m: MoleculeData) {
    FitsMillis(m.createdAt * 1000) &&
    AllRepresentable(m.atoms)
  }

  lemma {:induction false} HeaderReads(j: Json, m: MoleculeData)
    requires MoleculeReadsAs(j, m)
    ensures ReadHeader(j) == Success(Header(m.molecularHash, NonEmpty(m.bundle), NonEmpty(m.cellSlug), m.version,
                                            Some(IntText(m.createdAt * 1000)), AtomsToJson(m.atoms)))
  {
  }

  lemma {:induction false} HeaderBuilds(h: Header, ms: int, atoms: Result<seq<AtomData>>)
    requires ReadAtoms(h.items) == atoms && h.createdAt == Some(IntText(ms * 1000))
    ensures BuildMolecule(h)
         == if !FitsMillis(ms * 1000) then Failure(InvalidJson)
            else if atoms.Failure? then Failure(atoms.error)
            else Success(MoleculeData(None, h.bundle, h.molecularHash, h.cellSlug, h.version, ms, None, atoms.value))
  {
    MillisRoundTrip(ms * 1000);
    assert ms * 1000 / 1000 == ms;
  }

  lemma {:induction false} MoleculeReadsBack(j: Json, m: MoleculeData)
    requires MoleculeReadsAs(j, m) && |m.atoms| <= MAX_ATOMS
    ensures MoleculeFromJson(j)
         == if RepresentableMolecule(m) then Success(CanonMolecule(m)) else Failure(InvalidJson)
  {
    var h := Header(m.molecularHash, NonEmpty(m.bundle), NonEmpty(m.cellSlug), m.version,
                    Some(IntText(m.createdAt * 1000)), AtomsToJson(m.atoms));
    HeaderReads(j, m);
    ReadWrittenAtoms(m.atoms);
    HeaderBuilds(h, m.createdAt, ReadAtoms(AtomsToJson(m.atoms)));
  }

  /** from_json after to_json: accepted exactly when representable, and what comes back. */
  lemma {:induction false} MoleculeRoundTrip(m: MoleculeData, wallets: seq<(string, Json)>)
    requires IsTrailer(wallets) && |m.atoms| <= MAX_ATOMS
    ensures MoleculeFromJson(MoleculeToJson(m, wallets))
         == if RepresentableMolecule(m) then Success(CanonMolecule(m)) else Failure(InvalidJson)
  {
    MoleculeFieldsRead(m, wallets);
    MoleculeReadsBack(MoleculeToJson(m, wallets), m);
  }

  // ---------------------------------------------------------------- end to end

  /** A molecule after sign() succeeded. */
  ghost function SignedMolecule(c: Crypto, printJson: Json -> string, m: MoleculeData, compressed: bool): MoleculeData
    requires c.Valid() && m.secret.Some? && m.atoms != []
    requires SigningKey(c, m.secret.value, SortByIndex(m.atoms), m.sourceOts).Some?
  {
    m.(molecularHash := Some(MolecularHash(c, printJson, m.atoms)),
    atoms := SignedAtoms(c, printJson, m.secret.value, m.atoms, m.sourceOts, compressed))
  }

  /** knishio_generate_bundle_hash without token and position. */
  function BundleHash(c: Crypto, secret: string): Text {
    if |secret| == SECRET_LENGTH && IsStrictHex(secret) then Some(c.shake(secret, 256)) else None
  }

  /** The bundle after signing; None when it has to be derived and cannot be. */
  function SigningBundle(c: Crypto, secret: string, own: Text, bundle: Text, anonymous: bool): Option<Text> {
    if anonymous || own.Some? then Some(own)
    else if bundle.Some? then Some(bundle)
    else if BundleHash(c, secret).Some? then Some(BundleHash(c, secret))
    else None
  }

  /** What knishio_molecule_sign answers and leaves behind; a failure keeps the steps before it. */
  ghost function SignOutcome(c: Crypto, printJson: Json -> string, m: MoleculeData, bundle: Text, anonymous: bool,
                             compressed: bool): (Error, MoleculeData)
    requires c.Valid()
  {
    if m.secret.None? then (InvalidArgs, m)
    else if m.atoms == [] then (AtomsMissing, m)
    else
      var sorted := m.(atoms := SortByIndex(m.atoms));
      match SigningBundle(c, m.secret.value, m.bundle, bundle, anonymous)
      case None => (CryptoError, sorted)
      case Some(b) =>
        var hashed := sorted.(bundle := b, molecularHash := Some(MolecularHash(c, printJson, m.atoms)));
        if sorted.atoms[0].position.None? then (InvalidArgs, hashed)
        else if SigningKey(c, m.secret.value, sorted.atoms, m.sourceOts).None? then (CryptoError, hashed)
        else (Ok, SignedMolecule(c, printJson, m.(bundle := b), compressed))
  }

  /** What a trip through JSON carries of a list of atoms: its hash. */
  predicate Carried(atoms: seq<AtomData>) {
    AllRepresentable(atoms) &&
    (AllVersioned(atoms) ==> forall i :: 0 <= i < |atoms| ==> ViewStable(atoms[i]))
  }

  /** Carried looks at the atoms as a collection, and not at their fragments. */
  lemma {:induction false} CarriedSorted(atoms: seq<AtomData>)
    requires Carried(atoms)
    ensures Carried(SortByIndex(atoms))
  {
    var sorted := SortByIndex(atoms);
    SortSorts(atoms);
    assert forall i :: 0 <= i < |sorted| ==> sorted[i] in multiset(atoms);
    assert forall i :: 0 <= i < |atoms| ==> atoms[i] in multiset(sorted);
  }

  lemma {:induction false} CarriedSigned(atoms: seq<AtomData>, fragments: seq<Text>)
    requires Carried(atoms) && |atoms| == |fragments|
    ensures Carried(WithFragments(atoms, fragments))
  {
    var signed := WithFragments(atoms, fragments);
    forall i | 0 <= i < |atoms|
      ensures Representable(signed[i]) && (ViewStable(atoms[i]) ==> ViewStable(signed[i]))
      ensures signed[i].version == atoms[i].version
    {
      assert Representable(atoms[i]);
    }
  }

  /** The fragments of the canonical atoms are those of the atoms. */
  lemma {:induction false} CanonKeepsSignature(atoms: seq<AtomData>)
    ensures FragmentsOf(CanonAll(atoms)) == FragmentsOf(atoms)
  {
  }

  /** A 64-character address is not the empty one a missing address becomes. */
  lemma {:induction false} AddressSurvives(c: Crypto, atoms: seq<AtomData>, hash: string)
    requires c.Valid() && atoms != [] && IsSignable(hash)
    ensures CheckOts(c, Some(hash), CanonAll(atoms)) == Ok <==> CheckOts(c, Some(hash), atoms) == Ok
  {
    hide DecodedSignature, Rebuilt, Advanced, VerifyCounts;
    CanonKeepsSignature(atoms);
    var sig := DecodedSignature(Rebuilt(FragmentsOf(atoms)));
    if sig.Some? {
      assert |Resolved(c, sig.value, hash)| == 64;
    }
  }

  /** Through JSON, the signed atoms keep the hash that was signed. */
  lemma {:induction false} TripKeepsHash(c: Crypto, printJson: Json -> string, atoms: seq<AtomData>, pieces: seq<Text>)
    requires c.Valid() && |atoms| == |pieces| && Carried(atoms)
    ensures var signed := WithFragments(SortByIndex(atoms), pieces);
            Carried(signed) && MolecularHash(c, printJson, CanonAll(signed)) == MolecularHash(c, printJson, atoms)
  {
    CarriedSorted(atoms);
    CarriedSigned(SortByIndex(atoms), pieces);
    SigningKeepsHash(c, printJson, atoms, pieces);
    JsonKeepsHashedText(printJson, WithFragments(SortByIndex(atoms), pieces));
  }

  /**
   Sign, serialise, parse, hash again, resolve. The parsed molecule declares its own hash. When
   the signature survives the atoms' earlier fragments, its check succeeds if and only if the
   lowest-index atom carries the address of the key derived from that atom's token and
   position; otherwise only for another signature.
   */
  lemma {:induction false} EndToEnd(c: Crypto, printJson: Json -> string, m: MoleculeData, compressed: bool,
                                    wallets: seq<(string, Json)>)
    requires c.Valid() && m.secret.Some? && m.atoms != [] && |m.atoms| <= MAX_ATOMS && IsTrailer(wallets)
    requires SigningKey(c, m.secret.value, SortByIndex(m.atoms), m.sourceOts).Some?
    requires Carried(m.atoms) && FitsMillis(m.createdAt * 1000)
    ensures var parsed := MoleculeFromJson(MoleculeToJson(SignedMolecule(c, printJson, m, compressed), wallets));
            parsed.Success? && parsed.value.atoms != [] &&
            parsed.value.molecularHash == Some(MolecularHash(c, printJson, parsed.value.atoms)) &&
            (CheckOts(c, parsed.value.molecularHash, parsed.value.atoms) == Ok
             <==> Accepts(c, printJson, m.secret.value, m.atoms, m.sourceOts, compressed))
  {
    hide Accepts;
    var sorted := SortByIndex(m.atoms);
    var signed := SignedMolecule(c, printJson, m, compressed);
    var key := SigningKey(c, m.secret.value, sorted, m.sourceOts).value;
    var hash := MolecularHash(c, printJson, m.atoms);
    var pieces := Distributed(SignatureText(c, key, hash, compressed), FragmentsOf(sorted));
    assert signed.atoms == WithFragments(sorted, pieces);
    TripKeepsHash(c, printJson, m.atoms, pieces);
    MoleculeRoundTrip(signed, wallets);
    TripChecks(c, printJson, m, compressed);
  }

  lemma {:induction false} TripChecks(c: Crypto, printJson: Json -> string, m: MoleculeData, compressed: bool)
    requires c.Valid() && m.secret.Some? && m.atoms != []
    requires SigningKey(c, m.secret.value, SortByIndex(m.atoms), m.sourceOts).Some?
    ensures CheckOts(c, Some(MolecularHash(c, printJson, m.atoms)),
                     CanonAll(SignedMolecule(c, printJson, m, compressed).atoms)) == Ok
       <==> Accepts(c, printJson, m.secret.value, m.atoms, m.sourceOts, compressed)
  {
    hide Accepts, CheckOts;
    var signed := SignedAtoms(c, printJson, m.secret.value, m.atoms, m.sourceOts, compressed);
    SignedChecks(c, printJson, m.secret.value, m.atoms, m.sourceOts, compressed);
    AddressSurvives(c, signed, MolecularHash(c, printJson, m.atoms));
  }

  /** The key comes from the lowest-index atom, and neither it nor the hash depends on the arrangement. */
  lemma {:induction false} LowestAtomSigns(c: Crypto, printJson: Json -> string, atoms: seq<AtomData>,
                                           other: seq<AtomData>, secret: string, sourceOts: Option<int>)
    requires c.Valid() && atoms != []
    requires multiset(atoms) == multiset(other) && IndexDetermines(atoms)
    ensures SortByIndex(atoms)[0] in atoms
    ensures forall a :: a in atoms ==> SortByIndex(atoms)[0].index <= a.index
    ensures other != [] && SigningKey(c, secret, SortByIndex(other), sourceOts)
                           == SigningKey(c, secret, SortByIndex(atoms), sourceOts)
    ensures MolecularHash(c, printJson, other) == MolecularHash(c, printJson, atoms)
  {
    var sorted := SortByIndex(atoms);
    SortSorts(atoms);
    assert sorted[0] in multiset(atoms);
    forall a | a in atoms ensures sorted[0].index <= a.index {
      assert a in multiset(sorted);
    }
    assert |multiset(other)| == |other| && |multiset(atoms)| == |atoms|;
    SortUnique(atoms, other);
    PermutationInvariant(printJson, atoms, other);
  }

  /** The same theorem for what sign() leaves behind, the bundle it derived included. */
  lemma {:induction false} SignOutcomeEndToEnd(c: Crypto, printJson: Json -> string, m: MoleculeData, bundle: Text,
                                               anonymous: bool, compressed: bool, wallets: seq<(string, Json)>)
    requires c.Valid() && SignOutcome(c, printJson, m, bundle, anonymous, compressed).0 == Ok
    requires |m.atoms| <= MAX_ATOMS && IsTrailer(wallets)
    requires Carried(m.atoms) && FitsMillis(m.createdAt * 1000)
    ensures m.secret.Some? && m.atoms != [] && SigningKey(c, m.secret.value, SortByIndex(m.atoms), m.sourceOts).Some?
    ensures var parsed := MoleculeFromJson(MoleculeToJson(SignOutcome(c, printJson, m, bundle, anonymous, compressed).1,
                                                          wallets));
            parsed.Success? && parsed.value.atoms != [] &&
            parsed.value.molecularHash == Some(MolecularHash(c, printJson, parsed.value.atoms)) &&
            (CheckOts(c, parsed.value.molecularHash, parsed.value.atoms) == Ok
             <==> Accepts(c, printJson, m.secret.value, m.atoms, m.sourceOts, compressed))
  {
    hide Accepts;
    var b := SigningBundle(c, m.secret.value, m.bundle, bundle, anonymous).value;
    EndToEnd(c, printJson, m.(bundle := b), compressed, wallets);
  }
}
