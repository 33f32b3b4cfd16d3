# KnishIO C SDK: a Dafny model

This project models the value-carrying core of the KnishIO C SDK and proves properties of the model.

- `Digits`, `Base17`, `Normalize`, `Chains`, `ChainRunner`, `Base64`, `Fragments`: the one-time signature. A 256-bit hash
  becomes 64 base-17 digits by in-place long division, the digits are normalised to sum zero, each chunk of the private
  key is hashed as often as its digit says, and the result is cut over the atoms. The verifier puts it together again and
  hashes on to the wallet's address. The optional kcore backend gives the same chains as the SDK's own loop.
- `Decimal`, `NumberPrinter`: decimal texts, and the number layout of section 6.1.6.1.20 of ECMA-262.
- `Atoms`, `AtomJson`, `AtomObject`, `Hashing`, `Preimages`: atoms, their JSON, what of them is hashed and what the hash
  input commits to.
- `Signing`, `SigningSteps`, `Molecules`, `Verdicts`: signing, the molecule's JSON, the verifier's hash and signature
  checks, and the end-to-end theorem that joins them, by OTS version and field by field.
- `Wallets`, `ValuePlans`, `Builders`, `Fusion`, `BuiltAtoms`, `TokenLedgers`, `Transfers`: token units and their
  splitting, the value builders, what they answer and append, what they conserve, in all and token by token, and the
  theorem that what a builder makes verifies after signing and a trip through JSON.
- `HandlePool`, `Custody`: the shared curl handles under any interleaving, and where the client keeps its secret.

Code that changes things in place is written as methods on arrays and classes (the molecule, its atoms, wallets, the
sponge, the handle pool, the client). Each such method is proved against a function on values, and the theorems are
about those functions. SHAKE256, the big-integer addition behind a private key, kcore, the JSON printer and parser,
the clock, the random batch ids and the secret provider are parameters: function values with a length contract, or
outcomes chosen from outside. JSON is a tree.

Five properties fail on some inputs, and the project gives an example and the exact condition for each.

- Fragments do not give a signature back when an atom past the last piece still holds one from an earlier, longer
  signature (`Fragments.FragmentRoundTrip`, `Fragments.StaleFragments`). The verifier reads the new signature anyway when
  it is compressed and the stale text is a multiple of four characters (`Signing.SignatureReads`,
  `Signing.SecondSigning`).
- A transfer without a remainder wallet conserves value only when it sends the whole balance, and a balance of -1 or less
  gives a debit that is not a number (`ValuePlans.InitValueConserves`, `ValuePlans.RestLost`,
  `ValuePlans.NegativeBalance`).
- No builder compares the tokens of its wallets, and only fusion keeps to one, so what is conserved in all need not be
  conserved token by token (`TokenLedgers.TransferTokens` and its companions, `TokenLedgers.TokenTurned`).
- Fusion accepts one unit named twice and then sends fewer units than it pays for (`Fusion.FusionPartitions`,
  `Fusion.RepeatedId`).
- A provider whose failed store drops its record loses the secret of that bundle (`Custody.FailedSet`,
  `Custody.TornRecordLoses`).

The contract at include/knishio/molecule.h does not mention a repeated id among the fused ones; the model follows the
code.

## Model

| member | source | states |
|---|---|---|
| `Base17.HashIsSignable` | `src/molecule.c:266-277` | true exactly for 64 characters from 0-9a-g; the scan stops at the 65th character or the first foreign one |
| `Base17.ToBase17Faithful` | `src/molecule.c:579-642` | the 64 base-17 digits have exactly the value of the 64 hexadecimal ones, 17^64 exceeds 16^64 so none is lost, and different digests give different hashes |
| `Base17.ParseBytes` | `src/molecule.c:592-596` | the 32 bytes read from 64 hexadecimal digits have the digest's value, each below 256 |
| `Base17.IsZero` | `src/molecule.c:606-614` | the zero test of the in-place division: true exactly when the number is zero |
| `Base17.DivideBy17` | `src/molecule.c:616-622` | one in-place long division: old value = 17 * new value + remainder, remainder below 17, bytes below 256, value strictly smaller unless zero |
| `Base17.EmitDigits` | `src/molecule.c:598-628` | the division loop terminates, never runs out of places, and the digits emitted right to left have the value of the input |
| `Base17.HexToBase17` | `src/molecule.c:579-642` | hex_to_base17 with its zero padding: the faithful numeral for 64 digits, NULL for any other length |
| `Normalize.EnumerateHash` | `src/molecule.c:1101-1140` | succeeds exactly on signable hashes, and maps the digits to -8..8 |
| `Normalize.EnumeratedInjective` | `src/molecule.c:1101-1140` | different signable hashes enumerate differently |
| `Normalize.EnumeratedOrder` | `src/molecule.c:1101-1140` | the numbers run from -8 for 0 to 8 for g, strictly in the order of the characters |
| `Normalize.NormalizePass` | `src/molecule.c:1168-1185` | one round of the loop is a prefix of unit moves, keeps the total exact and brings it strictly closer to zero |
| `Normalize.NormalizeHash` | `src/molecule.c:1142-1190` | the round-robin loop terminates and leaves the normal form of its input; empty input is refused |
| `Normalize.NormalFormExists` | `src/molecule.c:1158-1186` | every vector has a reachable zero-sum form, so the loop has somewhere to stop |
| `Normalize.NormalFormUnique` | `src/molecule.c:1158-1186` | k rounds and p further moves that end in a zero sum determine one result, whatever k and p |
| `Normalize.NormalizedProperties` | `src/molecule.c:1142-1190` | the result sums to zero, stays in -8..8, moves every entry in one direction only, and normalising it again changes nothing |
| `Normalize.NormalizedClosedForm` | `src/molecule.c:1158-1186` | the loop's result is min(8, in[i] + k + (1 if i < p)) for a negative total, and symmetrically for a positive one |
| `Normalize.NormalizedAntichain` | `src/molecule.c:1158-1186` | no normal form lies pointwise below a different one |
| `Chains.AdvanceAdd` | `src/molecule.c:473-498` | m then n hashes of a chunk are m + n hashes |
| `Chains.AdvancedAdd` | `src/molecule.c:460-504` | advancing all chains by one count vector and then another is advancing by the sum, and keeps the 128-character chunks |
| `Chains.SignatureResolves` | `src/libraries/check_molecule.c:285-343` | chain complement: the signature of a key of up to 64 chunks, advanced 8 + n[i] more steps, resolves to the key's own address, for 16 and 64 chains |
| `Chains.SignatureChain` | `src/molecule.c:460-498` | chain i of a signature is chain i of the key, hashed 8 - n[i] times |
| `Chains.AddressByChains` | `src/wallet.c:201-347` | the address is the digest of the digest of the ends the chains reach after sixteen steps, chain by chain, and has 64 characters |
| `Chains.ResolvedByChains` | `src/libraries/check_molecule.c:285-343` | a signature resolves to the digest of the digest of the ends its chains reach with 8 + n[i] steps, chain by chain |
| `Chains.SignCountsBalanced` | `src/molecule.c:460-474` | 64-chain signing counts total 512, and two hashes whose counts compare pointwise have the same normalised vector |
| `Chains.WalletKey` | `src/wallet.c:121-197` | a derived private key has 128 * 16 lowercase hexadecimal characters at version 1 and 128 * 64 at version 2 |
| `Chains.KeyDeterminesToken` | `src/wallet.c:121-197` | keys of one secret and position at one version are equal exactly for one token, unless SHAKE256 collides on the two texts they are squeezed from or on their digests |
| `ChainRunner.IsLowerHex` | `src/kcore_bridge.h:26-34` | true exactly when the first n characters are lowercase hexadecimal |
| `ChainRunner.WotsChains` | `src/kcore_bridge.h:43-68` | true exactly when the guard lets the call through and kcore succeeds; then the buffer holds the advanced chains; a refusal leaves the buffer alone and a failure zeroes every character that was written |
| `ChainRunner.RunChain` | `src/molecule.c:473-498` | the loop of one chain hashes exactly the given number of times, none for a negative count |
| `ChainRunner.AdvanceChains` | `src/molecule.c:445-504` | the buffer holds the same chains with kcore linked, absent, failing or refused by the guard |
| `ChainRunner.SignableCountsEligible` | `src/kcore_bridge.h:43-56` | the guard never refuses the signing or verifying counts of a signable hash on a key of either length |
| `ChainRunner.Strcat` | `src/molecule.c:500-501` | appending at the terminator concatenates the C strings |
| `ChainRunner.ChunkString` | `src/wallet.c:796-833` | the chunks concatenate back to the input, all but the last have the chunk size, and only size 0 is refused |
| `ChainRunner.GenerateAddress` | `src/wallet.c:201-347` | the address of a 2048 or 8192 character key is the digest of all chains advanced 16 steps, kcore or not; any other length is refused |
| `Base64.Base64RoundTrip` | `src/libraries/base64.c:40-231` | compressing lowercase hexadecimal and decompressing gives it back, with the padded length |
| `Base64.PaddedTail` | `src/libraries/base64.c:97-167` | padded base64 with other text behind it decodes to the same bytes if and only if the whole length is a multiple of four, and is malformed otherwise |
| `Base64.Rfc4648Vectors` | `src/libraries/base64.c:40-95` | three test vectors of section 10 of RFC 4648 |
| `Fragments.RebuiltDistributed` | `src/molecule.c:525-566` | what the verifier concatenates is the signature followed by whatever the atoms past the last piece held before |
| `Fragments.FragmentRoundTrip` | `src/molecule.c:525-566` | the fragments give the signature back if and only if no atom past the last piece holds an earlier fragment; always when none held any |
| `Fragments.StaleFragments` | `src/molecule.c:537-541` | re-signing 90 atoms with a shorter signature leaves 70 stale characters: a concrete failure of the round trip |
| `SigningSteps.DistributeSignature` | `src/molecule.c:525-566` | the distribution loop writes exactly the pieces of the ceiling division and touches nothing else |
| `SigningSteps.RebuildSignature` | `src/libraries/check_molecule.c:228-254` | the two passes concatenate the fragments, a missing one contributing nothing |
| `SigningSteps.SortAtoms` | `src/molecule.c:318` | the atoms in index order, the same objects |
| `SigningSteps.UpdateSpongeWithAtom` | `src/molecule.c:645-760` | absorbs exactly the hashed fields in order, NULL fields and metas without key or value skipped |
| `SigningSteps.AbsorbMolecule` | `src/molecule.c:762-819` | what generate_hash absorbs: the Version4 view when every atom is versioned, otherwise the concatenated fields |
| `SigningSteps.Version4View` | `src/atom.c:945-989` | one view per atom in index order |
| `Hashing.SortSorts` | `src/molecule.c:1244-1259` | the sorted list is sorted and a permutation |
| `Hashing.DistinctIndicesDetermine` | `src/molecule.c:1244-1259` | distinct indices determine the atom |
| `Hashing.SortUnique` | `src/molecule.c:1244-1259` | with indices that determine the atom, every sorted arrangement from every starting order is the same list |
| `Hashing.PermutationInvariant` | `src/molecule.c:771-819` | the hash input does not depend on the arrangement of atoms with distinct indices, in either form |
| `Hashing.FragmentNotHashed` | `src/molecule.c:645-760` | one-time-signature fragments are in neither hash form |
| `Hashing.SortedInput` | `src/molecule.c:318-354` | the sort that sign() does in place leaves the hash input as it was |
| `Hashing.CanonPreimage` | `src/atom.c:632-780` | the trip through JSON keeps the legacy preimage of every atom the reader accepts, despite empty strings, null metas and the re-split timestamp |
| `Hashing.CanonView` | `src/atom.c:921-943` | the trip through JSON keeps a versioned atom's view if and only if no optional string is empty, position and address are present and every meta has a key |
| `Hashing.JsonKeepsHashedText` | `src/molecule.c:762-819` | for every printer, the hash input of a whole list survives the trip when an atom is unversioned or all views are stable |
| `Hashing.JsonKeepsView` | `src/atom.c:945-989` | the view of a fully versioned list survives the trip if and only if every atom's view is stable |
| `Hashing.JsonKeepsExactly` | `src/molecule.c:762-819` | the hash input survives the trip if and only if an atom is unversioned or all views are stable, for a printer that tells the two view lists apart when they differ |
| `Hashing.ViewInjective` | `src/atom.c:899-943` | equal views of atoms with non-negative index and no NULL metas agree on all twelve hashed fields |
| `Hashing.ViewsDetermineAtoms` | `src/atom.c:945-989` | equal lists of views come from index-sorted lists that agree on all twelve hashed fields |
| `Hashing.ViewNames` | `src/atom.c:899-943` | the twelve names of the view in their order, each over its own field |
| `Preimages.AtomCommits` | `src/molecule.c:645-760` | two atoms that differ in at most one hashed field (a text, the isotope, the time, one key or value of one meta) have one legacy text if and only if that field agrees, NULL being as good as the empty text |
| `Preimages.ListCommits` | `src/molecule.c:762-819` | changing one hashed field of one atom of an unversioned list changes the hash input, and nothing less does |
| `Preimages.ListOrder` | `src/molecule.c:762-819` | the input of an unversioned list is the texts of its atoms in index order, each starting with the number of atoms |
| `Preimages.FieldOrder` | `src/molecule.c:645-760` | any two text fields are hashed one behind the other in the fixed order, the isotope in its place, then the metas and the time |
| `Preimages.MetaOrder` | `src/molecule.c:645-760` | metas are hashed in order, the key before the value, and only with both |
| `Atoms.IsotopeFromString` | `src/atom.c:1000-1012` | the table scan finds the isotope of a name, or unknown |
| `Atoms.IsotopeRoundTrip` | `src/atom.c:993-1012` | the two table directions invert each other on every known isotope |
| `AtomObject.Atom.Create` | `src/atom.c:80-181` | succeeds exactly when the three required strings are there and position and address are empty or 64 long; the new atom has index -1 |
| `AtomObject.Atom.SetIndex` | `src/atom.c:261-272` | refuses exactly negative indices and changes nothing else |
| `AtomObject.Atom.AddMeta` | `src/atom.c:308-331` | appends a meta, refuses NULL |
| `AtomObject.Atom.ToJson` | `src/atom.c:420-596` | the members appended are exactly those of the atom's JSON |
| `AtomObject.Atom.FromJson` | `src/atom.c:632-780` | accepts, refuses and fills the fields exactly as the reader's function says |
| `AtomObject.Atom.ReadMetaEntries` | `src/atom.c:731-772` | the meta loop reads the entries in order and fails on the first malformed one |
| `AtomJson.JsonRoundTrip` | `src/atom.c:420-780` | for every atom: the reader accepts the atom's own JSON exactly when it is representable, and returns exactly its canonical form |
| `AtomJson.CanonIdempotent` | `src/atom.c:632-780` | a second trip through JSON changes nothing |
| `AtomJson.AtomTrip` | `src/atom.c:420-780` | for an atom whose metas have key and value: accepted exactly with a known isotope, a token, position and address empty or 64 long, an index that is an int, a time of 18 digits and metas of at most 256 and 4096 characters; then every field arrives |
| `AtomJson.AtomWire` | `src/atom.c:420-596` | what stands under each of the thirteen names |
| `AtomJson.NumericVersion` | `src/atom.c:662-672` | a version given as a number is read as a text that denotes the number, and must be finite |
| `AtomJson.ReadVersion` | `src/atom.c:662-672` | the version of an atom that was read is that text |
| `AtomJson.ReadIsRead` | `src/atom.c:632-780` | whatever tree was read, writing and reading it again gives the same atom, but for an empty text that becomes NULL |
| `Decimal.ReadMillis` | `src/atom.c:616-630` | accepts exactly one to eighteen decimal digits and returns their value |
| `Decimal.MillisRoundTrip` | `src/atom.c:616-630` | a printed timestamp reads back exactly when it has one to eighteen digits and no sign |
| `Decimal.LayoutRoundTrip` | `src/atom.c:819-875` | parsing the printed text gives the same decimal value back in all layout forms, for every digit string and exponent |
| `Decimal.ExponentShown` | `src/atom.c:839-873` | the exponent form is taken exactly below 1e-6 and from 1e21 on, and a whole number of up to 21 digits has no point |
| `NumberPrinter.StripZeros` | `src/atom.c:831-834` | trailing zeros go, one digit stays |
| `NumberPrinter.PutPlain` | `src/atom.c:847-853` | the two point-inside forms, written character by character |
| `NumberPrinter.PutSmall` | `src/atom.c:854-862` | the leading-zeros form |
| `NumberPrinter.PutExponent` | `src/atom.c:863-873` | the exponent form |
| `NumberPrinter.LayoutFits` | `src/atom.c:819-875` | the text of every finite double fits the 32-byte buffer with its terminator |
| `NumberPrinter.NumberToString` | `src/atom.c:802-876` | false exactly for a value that is not finite or a buffer that is too small; otherwise the layout text |
| `Molecules.Molecule.ResizeAtoms` | `src/molecule.c:1194-1219` | the capacity doubles, to 256 at most; fails exactly at 256, changing nothing |
| `Molecules.Molecule.AddAtom` | `src/molecule.c:157-193` | refused exactly at 256 atoms, and then nothing changes; otherwise appended under the next index, hash and signature voided; an atom that is there already is accepted too |
| `Molecules.Molecule.GenerateHash` | `src/molecule.c:762-867` | stores the molecular hash of the atoms, or reports that there are none |
| `Molecules.Molecule.Sign` | `src/molecule.c:288-575` | every error and the state each leaves, and on success the atoms, hash and bundle of the signing function; the result does not mention kcore |
| `Verdicts.SignAnswers` | `src/molecule.c:288-384` | what sign() answers, check by check, from the molecule's fields and the version its source wallet carries |
| `Verdicts.SignLeaves` | `src/molecule.c:288-575` | a successful sign() sorts, sets the bundle it had, was given or derived unless anonymous, sets the hash, writes fragments, and changes nothing else |
| `Molecules.Molecule.DeriveBundle` | `src/molecule.c:321-333` | the bundle signing settles on, or that it cannot be derived |
| `Molecules.Molecule.PrivateKey` | `src/molecule.c:352-404` | the key comes from the first atom's token and position at the source wallet's version |
| `SigningSteps.ComputeSignature` | `src/molecule.c:386-504` | the signature of a key is its chains advanced 8 - n[i] steps |
| `Molecules.Molecule.CheckMolecularHash` | `src/libraries/check_molecule.c:155-195` | true exactly when the declared hash is the one the atoms hash to |
| `SigningSteps.ResolveSignature` | `src/libraries/check_molecule.c:285-343` | the address a signature resolves to by advancing 8 + n[i] steps |
| `Molecules.DecodeSignature` | `src/libraries/check_molecule.c:260-283` | 2048 or 8192 characters are the signature, anything else is base64 whose decoded length decides |
| `Molecules.Molecule.CheckSignature` | `src/libraries/check_molecule.c:202-358` | every verdict of check_ots |
| `Molecules.Molecule.ToJson` | `src/molecule.c:871-1005` | the tree written for a molecule, the wallet members last |
| `Molecules.Molecule.AddParsedAtoms` | `src/molecule.c:1056-1074` | the atoms are added in order, each under the sender's index, up to the first failure |
| `Molecules.Molecule.FromJson` | `src/molecule.c:1007-1095` | accepts, refuses and fills the molecule exactly as the reader's function says; no molecule on failure |
| `Signing.MolecularHash` | `src/molecule.c:762-867` | the generated hash is always signable |
| `Signing.MoleculeRoundTrip` | `src/molecule.c:871-1095` | from_json after to_json succeeds exactly on representable molecules, and what comes back |
| `Verdicts.MoleculeTrip` | `src/molecule.c:871-1095` | member by member: accepted exactly when the time can be written and every atom is accepted alone; then every member and every atom arrives |
| `Verdicts.MoleculeWire` | `src/molecule.c:871-1005` | what stands under each name, the time in milliseconds |
| `Signing.SigningKeepsHash` | `src/molecule.c:318-566` | the signed, sorted atoms hash to the hash that was signed |
| `Signing.SignatureReads` | `src/libraries/check_molecule.c:256-283` | behind other text, a plain signature is read as itself only if that text is empty, a compressed one if and only if the text's length is a multiple of four and the whole is not as long as a plain signature |
| `Signing.SecondSigning` | `src/molecule.c:525-566` | signed plainly and then compressed, 47 atoms keep a signature the verifier reads and 90 do not |
| `Signing.SignedChecks` | `src/libraries/check_molecule.c:202-358` | the verdict on a signed molecule, whatever fragments its atoms held: when the signature is read, success if and only if the first atom carries the signing key's address; otherwise malformed, or success only for another signature's address |
| `Signing.TripKeepsHash` | `src/molecule.c:871-1095` | the signed atoms read back from JSON hash to the hash that was signed |
| `Signing.EndToEnd` | `src/molecule.c:288-575` | sign, serialise, parse, hash again, resolve: the parsed molecule declares its own hash, and verifies if and only if the lowest-index atom carries the signing key's address (another signature's, where earlier fragments hide the new one), compressed or not, for 16 and 64 chains |
| `Signing.UnsignedSurvives` | `src/molecule.c:525-566` | the signature of atoms that hold no fragment yet is always read |
| `Signing.SignOutcomeEndToEnd` | `src/molecule.c:288-575` | the same for what sign() leaves behind, the derived bundle included |
| `Verdicts.SignedAtVersion` | `src/molecule.c:281-286` | for a source wallet of version 1 or 2 (1 when it says 0 and without a wallet) and atoms without fragments, the signed molecule passes if and only if the lowest-index atom carries the address of the key its token and position give at that version |
| `Verdicts.SignatureAtVersion` | `src/molecule.c:366-404` | the plain signature then has 8192 characters at version 2 and 2048 at version 1 |
| `Signing.LowestAtomSigns` | `src/molecule.c:318-354` | the signing key comes from the lowest-index atom, and key and hash are the same for every arrangement of the atoms |
| `ValuePlans.TruncateAtLeast` | `src/molecule.c:1829` | the truncated balance is at least every int the balance is at least, and is negative exactly for balances of -1 or less |
| `ValuePlans.TruncateTowardZero` | `src/molecule.c:1829` | the truncated balance is the whole number next to it on the side of zero |
| `ValuePlans.ValueOfDebit` | `src/molecule.c:1829` | "-%d" is a number exactly when the truncated balance is not negative |
| `ValuePlans.PlacedWhole` | `src/molecule.c:157-193` | a builder succeeds exactly when every atom can be made and there is room; what it added before a refusal stays |
| `Builders.AddPlanned` | `src/molecule.c:1831-1852` | one create-and-add step of a builder, refusals included |
| `Builders.InitValue` | `src/molecule.c:1808-1923` | the error and the atoms of a transfer |
| `ValuePlans.InitValueBooks` | `src/molecule.c:1808-1923` | a transfer debits the source's whole balance and credits the recipient's and then the remainder's address, token and bundle, under consecutive indices |
| `ValuePlans.InitValueConserves` | `src/molecule.c:1808-1923` | the values sum to zero if and only if the balance is above -1 and there is a remainder wallet or the whole balance is sent; the rest is never negative |
| `ValuePlans.RestLost` | `src/molecule.c:1808-1923` | without a remainder wallet, 3 of 10.0 are sent without an error and the values sum to -7 |
| `ValuePlans.NegativeBalance` | `src/molecule.c:1826-1829` | -2 of -2.0 are sent without an error, and the debit "--2" is no number |
| `BuiltAtoms.TransferAtoms` | `src/molecule.c:1830-1920` | the atoms of a transfer field by field: each carries its wallet's units as the tokenUnits meta, unless there are none or their text is over 4096 characters, and the credits the wallets' bundles |
| `BuiltAtoms.TransferAnswers` | `src/molecule.c:1808-1923` | every refusal of a transfer in order; accepted exactly with a covered amount, wallets that can have atoms, and room |
| `TokenLedgers.TransferTokens` | `src/molecule.c:1808-1923` | a transfer balances every token if and only if nothing that is not zero leaves the source's token, or from a zero balance a sum and its negative meet in one other token |
| `TokenLedgers.TokenTurned` | `src/molecule.c:1808-1923` | 10 of 10.0 sent to a wallet of another token are not refused: the values sum to zero, but those of neither token do |
| `Builders.InitValues` | `src/molecule.c:1925-2031` | the error and the atoms of a multi-transfer, a missing recipient included |
| `ValuePlans.InitValuesBooks` | `src/molecule.c:1925-2031` | a multi-transfer credits every recipient's address, token and bundle its own amount, in order, then the remainder's the rest |
| `ValuePlans.InitValuesConserves` | `src/molecule.c:1925-2031` | the values sum to zero if and only if the balance is above -1; the rest is never negative |
| `BuiltAtoms.MultiTransferAtoms` | `src/molecule.c:1950-2030` | the same fields for the source, every recipient and the remainder of a multi-transfer |
| `BuiltAtoms.MultiTransferAnswers` | `src/molecule.c:1925-2031` | every refusal of a multi-transfer, a missing recipient included, and exactly when it is accepted |
| `TokenLedgers.MultiTransferTokens` | `src/molecule.c:1925-2031` | a multi-transfer balances every token if and only if the balance is above -1 and what it credits in each token, the remainder included, is what it debits there; with no negative amount, that is when every recipient of something, and the remainder if anything is left, has the source's token |
| `Builders.InitBuffer` | `src/molecule.c:2054-2185` | the error and the atoms of a deposit or withdrawal |
| `ValuePlans.InitBufferConserves` | `src/molecule.c:2054-2185` | a deposit keeps the balance under the source's bundle, a withdrawal debits it and pays the recipient in the source's token; both always sum to zero |
| `ValuePlans.BufferIsotopes` | `src/molecule.c:2078-2109` | deposit and withdrawal exchange V and B, and every B atom has walletBundle as metaType |
| `BuiltAtoms.BufferAtoms` | `src/molecule.c:2054-2185` | the atoms of a deposit, which carry no units, and of a withdrawal, whose debit carries the source's under its bundle |
| `BuiltAtoms.BufferAnswers` | `src/molecule.c:2054-2185` | every refusal of a deposit or withdrawal, and exactly when it is accepted |
| `TokenLedgers.BufferTokens` | `src/molecule.c:2054-2185` | a deposit or withdrawal balances every token if and only if the buffer wallet of a deposit of something, and the remainder wallet if anything is left, have the source's token |
| `Builders.InitBurn` | `src/molecule.c:2209-2303` | the error and the atoms of a burn |
| `ValuePlans.InitBurnConserves` | `src/molecule.c:2209-2303` | a burn credits the all-zeros bundle; the values sum to zero if and only if the balance is above -1 |
| `BuiltAtoms.BurnAtoms` | `src/molecule.c:2209-2303` | the atoms of a burn: source and remainder carry their units, the burned amount none, and no atom has a batch |
| `BuiltAtoms.BurnAnswers` | `src/molecule.c:2209-2303` | every refusal of a burn, and exactly when it is accepted |
| `TokenLedgers.BurnTokens` | `src/molecule.c:2209-2303` | a burn balances every token if and only if the balance is above -1 and the remainder wallet, if anything is left, has the source's token |
| `Fusion.FindUnit` | `src/molecule.c:2449-2456` | the first unit of that id, none for a NULL id |
| `Fusion.CheckFusion` | `src/molecule.c:2458-2482` | the message for every refusal, in the order of the checks |
| `Fusion.FusionMessages` | `src/molecule.c:2458-2482` | which message, by what units have the ids: fewer than two ids, an id no unit has, no new id, or a new id some unit has |
| `Fusion.FusionPartitions` | `src/molecule.c:2556-2572` | sent and kept are an order-preserving partition of the source's units; sent is a permutation of the fused units if and only if no id is named twice |
| `Fusion.RepeatedId` | `src/molecule.c:2458-2482` | naming one unit twice is not refused and then sends fewer units than it pays for |
| `Fusion.NewUnitEmbedsFused` | `src/molecule.c:2576-2599` | for units of printable metas, reading the new unit's text back gives every fused unit's triple in caller order |
| `Fusion.FusionRefused` | `src/molecule.c:2523-2533` | TransferBalance exactly when there is a fusion error, and then no atom is added |
| `Fusion.FusionAnswers` | `src/molecule.c:2523-2554` | every refusal of a fusion in order, by what units have the ids; none of them adds an atom |
| `BuiltAtoms.FusionAtoms` | `src/molecule.c:2574-2645` | the four atoms of a fusion field by field, batches drawn only for a source that has one |
| `Fusion.WireTriple` | `src/molecule.c:2333-2346` | a unit on the wire is its id, its name and its metas, an empty object if they are absent or malformed |
| `Fusion.FusionConserves` | `src/molecule.c:2516-2649` | -B, M - 1, 1 and B - M, each to its address and bundle in the source's token, always sum to zero, the last not negative; with distinct ids it is the kept count exactly when B is the unit count |
| `TokenLedgers.FusionTokens` | `src/molecule.c:2516-2649` | a fusion always balances every token |
| `Fusion.FusionUnits` | `src/molecule.c:2574-2635` | for a source of such units, the atoms carry the sent units, all fused but the last, the new unit and the kept units |
| `Fusion.DivideUnits` | `src/molecule.c:2556-2572` | the nested loops divide the source's units by place |
| `Fusion.AddBundleAtom` | `src/molecule.c:2485-2514` | an atom with walletBundle and tokenUnits metas; a text over 4096 characters fails the call |
| `Fusion.FuseToken` | `src/molecule.c:2516-2649` | the error and the atoms of a fusion |
| `Transfers.TransferVerifies` | `src/molecule.c:1808-1923` | a transfer built on an empty molecule, signed and sent as JSON, verifies if and only if the source wallet's address is the one its secret, token and position derive at the version it carries |
| `Transfers.MultiTransferVerifies` | `src/molecule.c:1925-2031` | the same for a multi-transfer |
| `Transfers.BufferVerifies` | `src/molecule.c:2054-2185` | the same for a deposit or withdrawal |
| `Transfers.BurnVerifies` | `src/molecule.c:2209-2303` | the same for a burn |
| `Transfers.FusionVerifies` | `src/molecule.c:2516-2649` | the same for a fusion |
| `Wallets.CopySelected` | `src/wallet.c:615-650` | the counted and filled copy is a new array with exactly the chosen units in order |
| `Wallets.SplitUnits` | `src/wallet.c:603-668` | source and recipient have the units whose id is listed, the remainder those without an id or with another, each as often as before and in order, in its own new array; no id means no change; a wallet in several roles ends with its last one |
| `Wallets.ServeRecipients` | `src/wallet.c:691-719` | the recipients before the first missing one, all of them when none is, each have exactly the units of the source whose id is in their own list, in arrays of their own; the others are untouched |
| `Wallets.HeldByOther` | `src/wallet.c:691-719` | a source that is no recipient still has all its units |
| `Wallets.SplitUnitsMulti` | `src/wallet.c:670-762` | every recipient has the units whose id is in its own list, the source those with an id in any list, the remainder the rest, all arrays new and unshared; fails exactly for a missing recipient with something listed, and then only the recipients before it have changed |
| `Wallets.SelectPartitions` | `src/wallet.c:670-762` | a selection and its complement are an order-preserving partition |
| `Wallets.SharesOfDisjointLists` | `src/wallet.c:670-762` | with disjoint lists the recipients' units together are the new source as a multiset |
| `Wallets.SplitIsOneListSplit` | `src/wallet.c:603-668` | the one-recipient split is the multi split with one list |
| `HandlePool.StepKeepsSafe` | `src/http.c:585-616` | every step of every request keeps each handle in exactly one place, once, and at most eight idle |
| `HandlePool.RunIsSafe` | `src/http.c:585-616` | so does every interleaving from the start |
| `HandlePool.FreeClosesAll` | `src/http.c:108-131` | after the final free every handle ever created has been closed, once |
| `HandlePool.OpenHandlesBounded` | `src/http.c:26-38` | the handles not yet closed are at most eight more than the requests in flight |
| `HandlePool.ReusesLast` | `src/http.c:585-616` | the handle given back last is the first used again, after a reset, and none is created or closed on the way |
| `HandlePool.KeepsBelowEight` | `src/http.c:603-616` | a handle is kept exactly when fewer than eight are idle, and closed otherwise |
| `HandlePool.Pool.Acquire` | `src/http.c:585-601` | the array code takes exactly the machine's steps: pop and reset, or miss and create, or fail |
| `HandlePool.Pool.Release` | `src/http.c:603-616` | keeps the handle below eight, closes it otherwise, as the machine's steps say |
| `HandlePool.Pool.FreeHandles` | `src/http.c:119-126` | closes the idle handles in order |
| `Custody.SetIsRetrieved` | `src/client_ops.c:67-119` | a secret that was set is the secret retrieved, in cleartext or from the provider |
| `Custody.FailedSet` | `src/client_ops.c:67-92` | what a failed store leaves to retrieve: all as before, except where it tore the record of the current bundle |
| `Custody.AttachKeeps` | `src/client_ops.c:289-338` | attaching, replacing or detaching a provider keeps the secret if and only if it was in cleartext or the new provider has it under the bundle and options now in force |
| `Custody.CleartextIsLastSet` | `src/client_ops.c:67-119` | in every run, cleartext still held is the last secret successfully set |
| `Custody.CarefulExactly` | `src/client_ops.c:67-338` | the rule on a call's arguments is exact: a call obeys it if and only if the last secret stays retrievable after every answer of a provider that keeps records |
| `Custody.CustodyRemembers` | `src/client_ops.c:67-168` | with providers that keep records, every run of calls that obey the rule retrieves the last secret successfully set, whichever stores failed |
| `Custody.TornRecordLoses` | `src/client_ops.c:67-92` | storing the same secret again, with a failure that drops its record, leaves nothing to retrieve |
| `Custody.CoexistAfterFailedAttach` | `src/client_ops.c:326-334` | cleartext and provider coexist if and only if an attach failed and nothing succeeded since |
| `Custody.Client.StoreClientSecret` | `src/client_ops.c:67-119` | the client's fields after storing a secret are those of the machine's step |
| `Custody.Client.SetSecret` | `src/client_ops.c:279-287` | refuses NULL, otherwise stores |
| `Custody.Client.AttachStorage` | `src/client_ops.c:289-338` | the client's fields after set_secret_storage are those of the machine's step, failure included |
| `Custody.Client.RetrieveSecret` | `src/client_ops.c:121-168` | cleartext first, then the provider's record under the current bundle and options |

## Left out

- SHAKE256, the addition of secret and position, kcore and ML-KEM are parameters; the assumptions on them are
  `Crypto.Valid` (digest length and alphabet) and `Honest` (a kcore answer is the right one).
- cJSON: printing and parsing are parameters; text escaping, number text inside JSON and the fixed buffer sizes of
  src/molecule.c:885 are not modelled. `JsonText.Valid` says that parsing reads back what was printed, for trees of finite
  numbers the printer gives in full, strings without NUL and a depth the parser takes.
- Base64 is modelled as functions on values, not as the buffer loops of src/libraries/base64.c.
- qsort leaves the order of equal indices open; the model takes the stable order. With distinct indices
  (`Hashing.SortUnique`) there is only one.
- Allocation failures, debug output, `free` discipline and the KNISHIO_FIXED_TIMESTAMP variable are left out.
- Strings are C strings without NUL; fields are assumed to be such where a method needs it.
- An atom that is in one molecule twice: it can be added, but hashing, signing and checking such a molecule is excluded.
- Balances are exact reals, without NaN and infinities; the methods ask for balance, amount and their difference to be
  ints, because the C arithmetic is undefined beyond.
- The two JSON builders for tokenUnits (src/molecule.c:1347-1380 and 2335-2362) are one text function for the plain
  builders and a tree for fusion.
- The other checks of knishio_molecule_check (src/libraries/check_molecule.c:373-1008), the replenish, meta, token and
  wallet builders and the ContinuID atom are left out; they would add single-branch members.
- The search for the shortest digits of a double with snprintf and strtod (src/atom.c:812-817): the model starts from
  digits and exponent.
- A provider that changes between calls of its own accord, or whose retrieval fails now and again, is not modelled; the
  results are about what is stored. `KeepsRecord`, what `Custody.CustodyRemembers` asks of a failed store, allows the two ways
  src/storage/backend.c:251-286 and src/storage/envelope.c:290-318 fail: the old record, or the new one behind the error.
- GraphQL, HTTP requests, websockets, authentication tokens, policy metas and storage encryption are left out.
