/**
 The components together: a molecule a value builder fills, signed, serialised, parsed,
 hashed again and checked. It verifies exactly when the source wallet's address is the
 address of the key its own secret, token and position derive at its own version.
 */
module Transfers {
  import opened Basics
  import opened Decimal
  import opened Chains
  import opened Atoms
  import opened AtomJson
  import opened Hashing
  import opened Fragments
  import opened Signing
  import opened Verdicts
  import opened Wallets
  import opened ValuePlans
  import opened Fusion

  /** Written as JSON and read back, the molecule declares its own hash and passes the signature check. */
  ghost predicate TripVerifies(c: Crypto, printJson: Json -> string, m: MoleculeData, wallets: seq<(string, Json)>)
    requires c.Valid()
  {
    var parsed := MoleculeFromJson(MoleculeToJson(m, wallets));
    parsed.Success? && parsed.value.atoms != [] &&
    parsed.value.molecularHash == Some(MolecularHash(c, printJson, parsed.value.atoms)) &&
    CheckOts(c, parsed.value.molecularHash, parsed.value.atoms) == Ok
  }

  /** What every builder gives an atom: nothing the wire form cannot carry. */
  ghost predicate Carriable(env: Env, p: Planned) {
    p.Success? ==>
      p.value.isotope != UNKNOWN && p.value.token.Some? && LengthOk(OrEmpty(p.value.position)) &&
      LengthOk(OrEmpty(p.value.walletAddress)) && p.value.version == None && p.value.otsFragment == None &&
      p.value.createdAtMs == 0 && p.value.createdAt == env.now && MetasFit(p.value.meta, false)
  }

  lemma {:induction false} UnitsMetaFits(env: Env, units: seq<TokenUnit>)
    ensures MetasFit(UnitsMeta(env, units), false)
  {
  }

  /** The atoms of a plan placed on an empty molecule: carried by JSON, in order, without fragments. */
  lemma {:induction false} BuiltCarried(env: Env, plan: seq<Planned>, placed: seq<AtomData>)
    requires plan != [] && Refusals(plan) && forall i :: 0 <= i < |plan| ==> Carriable(env, plan[i])
    requires Placed([], plan) == (Ok, placed) && FitsMillis(env.now * 1000)
    ensures |placed| == |plan| && plan[0].Success? && placed[0] == plan[0].value.(index := 0)
    ensures SortByIndex(placed) == placed && Carried(placed) && NoFragments(FragmentsOf(placed))
    ensures |placed| <= MAX_ATOMS
  {
    var none: seq<AtomData> := [];
    PlacedWhole(none, plan);
    forall i | 0 <= i < |placed| ensures placed[i] == plan[i].value.(index := i) && Representable(placed[i]) {
      assert placed[|none| + i] == plan[i].value.(index := |none| + i);
      assert Carriable(env, plan[i]);
    }
    SortOfSorted(placed);
    assert placed[0].version.None?;
  }

  /** From a built list of atoms through signing and JSON to the verdict. */
  lemma {:induction false} BuiltEndToEnd(c: Crypto, printJson: Json -> string, env: Env, m: MoleculeData,
                                         plan: seq<Planned>, bundle: Text, anonymous: bool, compressed: bool,
                                         wallets: seq<(string, Json)>, version: int)
    requires c.Valid() && plan != [] && Refusals(plan) && forall i :: 0 <= i < |plan| ==> Carriable(env, plan[i])
    requires Placed([], plan) == (Ok, m.atoms) && FitsMillis(env.now * 1000) && FitsMillis(m.createdAt * 1000)
    requires SignOutcome(c, printJson, m, bundle, anonymous, compressed).0 == Ok && IsTrailer(wallets)
    requires IsVersion(m.sourceOts, version)
    ensures m.secret.Some? && plan[0].Success?
    ensures var key := KeyOf(c, m.secret.value, plan[0].value, version);
            key.Some? &&
            (TripVerifies(c, printJson, SignOutcome(c, printJson, m, bundle, anonymous, compressed).1, wallets) <==>
               plan[0].value.walletAddress == Some(Address(c, key.value)))
  {
    BuiltCarried(env, plan, m.atoms);
    SignedAtVersion(c, printJson, m, bundle, anonymous, compressed, wallets, version);
    SignOutcomeEndToEnd(c, printJson, m, bundle, anonymous, compressed, wallets);
  }

  /** The source atom of a plan stands for the source wallet. */
  ghost predicate FromSource(plan: seq<Planned>, source: WalletData) {
    plan != [] &&
    (plan[0].Success? ==>
       plan[0].value.position == source.position && plan[0].value.walletAddress == source.address &&
       plan[0].value.token == source.token)
  }

  /**
   The verdict on a molecule some builder filled from a source wallet: it verifies exactly when
   the wallet's address is that of the key of its token and position at the version it carries.
   */
  ghost predicate VerifiesExactlyFor(c: Crypto, printJson: Json -> string, m: MoleculeData, source: WalletData,
                                     bundle: Text, anonymous: bool, compressed: bool, wallets: seq<(string, Json)>)
    requires c.Valid()
  {
    SignOutcome(c, printJson, m, bundle, anonymous, compressed).0 == Ok && IsTrailer(wallets) ==>
      var version := if m.sourceOts.None? || m.sourceOts == Some(0) then 1 else m.sourceOts.value;
      m.secret.Some? && source.position.Some? &&
      match WalletKey(c, m.secret.value, source.token, source.position.value, version)
      case None => false
      case Some(key) =>
        TripVerifies(c, printJson, SignOutcome(c, printJson, m, bundle, anonymous, compressed).1, wallets) <==>
          source.address == Some(Address(c, key))
  }

  lemma {:induction false} PlanVerifies(c: Crypto, printJson: Json -> string, env: Env, m: MoleculeData,
                                        plan: seq<Planned>, source: WalletData, bundle: Text, anonymous: bool,
                                        compressed: bool, wallets: seq<(string, Json)>)
    requires c.Valid() && Refusals(plan) && FromSource(plan, source)
    requires forall i :: 0 <= i < |plan| ==> Carriable(env, plan[i])
    requires Placed([], plan) == (Ok, m.atoms) && FitsMillis(env.now * 1000) && FitsMillis(m.createdAt * 1000)
    ensures VerifiesExactlyFor(c, printJson, m, source, bundle, anonymous, compressed, wallets)
  {
    if SignOutcome(c, printJson, m, bundle, anonymous, compressed).0 == Ok && IsTrailer(wallets) {
      var version := if m.sourceOts.None? || m.sourceOts == Some(0) then 1 else m.sourceOts.value;
      BuiltEndToEnd(c, printJson, env, m, plan, bundle, anonymous, compressed, wallets, version);
    }
  }

  lemma {:induction false} BundleCarriable(env: Env, w: WalletData, isotope: Isotope, value: string)
    requires isotope != UNKNOWN
    ensures Carriable(env, PlanBundle(env, w, isotope, value)) && Refusals([PlanBundle(env, w, isotope, value)])
  {
    UnitsMetaFits(env, w.units);
  }

  lemma {:induction false} SourceCarriable(env: Env, w: WalletData)
    ensures Carriable(env, SourcePlan(env, w)) && Refusals([SourcePlan(env, w)])
  {
    UnitsMetaFits(env, w.units);
  }

  /** A transfer, built, signed and sent as JSON, verifies exactly when the source wallet is the signer's. */
  lemma {:induction false} TransferVerifies(c: Crypto, printJson: Json -> string, env: Env, m: MoleculeData,
                                            source: WalletData, recipient: WalletData, remainder: Option<WalletData>,
                                            amount: int, bundle: Text, anonymous: bool, compressed: bool,
                                            wallets: seq<(string, Json)>)
    requires c.Valid() && FitsMillis(env.now * 1000) && FitsMillis(m.createdAt * 1000)
    requires InitValue(env, [], Some(source), Some(recipient), remainder, amount) == (Ok, m.atoms)
    ensures VerifiesExactlyFor(c, printJson, m, source, bundle, anonymous, compressed, wallets)
  {
    hide VerifiesExactlyFor, Placed, IntText, Truncate, UnitsMeta;
    var plan := ValuePlan(env, source, recipient, remainder, amount);
    SourceCarriable(env, source);
    BundleCarriable(env, recipient, V, IntText(amount));
    if remainder.Some? {
      BundleCarriable(env, remainder.value, V, IntText(Truncate(source.balance) - amount));
    }
    PlanVerifies(c, printJson, env, m, plan, source, bundle, anonymous, compressed, wallets);
  }

  /** So does a multi-transfer. */
  lemma {:induction false} MultiTransferVerifies(c: Crypto, printJson: Json -> string, env: Env, m: MoleculeData,
                                                 source: WalletData, recipients: seq<Option<WalletData>>,
                                                 remainder: WalletData, amounts: seq<int>, bundle: Text,
                                                 anonymous: bool, compressed: bool, wallets: seq<(string, Json)>)
    requires c.Valid() && FitsMillis(env.now * 1000) && FitsMillis(m.createdAt * 1000) && |recipients| == |amounts|
    requires InitValues(env, [], Some(source), recipients, Some(remainder), amounts) == (Ok, m.atoms)
    ensures VerifiesExactlyFor(c, printJson, m, source, bundle, anonymous, compressed, wallets)
  {
    var plan, n := ValuesPlan(env, source, recipients, remainder, amounts), |recipients|;
    var rest := IntText(Truncate(source.balance) - Total(amounts));
    hide PlanBundle, SourcePlan, IntText, Truncate, Carriable, VerifiesExactlyFor, InitValues, Placed, Credits;
    SourceCarriable(env, source);
    BundleCarriable(env, remainder, V, rest);
    ValuesBooked(env, source, recipients, remainder, amounts);
    forall i | 0 <= i < |plan| ensures Carriable(env, plan[i]) {
      if 0 < i <= n {
        RecipientCarriable(env, recipients, amounts, i - 1);
        assert plan[i] == RecipientPlan(env, recipients, amounts)[i - 1];
      } else {
        assert plan[i] == if i == 0 then SourcePlan(env, source) else PlanBundle(env, remainder, V, rest);
      }
    }
    PlanVerifies(c, printJson, env, m, plan, source, bundle, anonymous, compressed, wallets);
  }

  lemma {:induction false} RecipientCarriable(env: Env, recipients: seq<Option<WalletData>>, amounts: seq<int>, i: nat)
    requires |recipients| == |amounts| && i < |recipients|
    ensures Carriable(env, RecipientPlan(env, recipients, amounts)[i])
  {
    if recipients[i].Some? {
      BundleCarriable(env, recipients[i].value, V, IntText(amounts[i]));
    }
  }

  /** So does a deposit or a withdrawal. */
  lemma {:induction false} BufferVerifies(c: Crypto, printJson: Json -> string, env: Env, m: MoleculeData,
                                          source: WalletData, middle: WalletData, remainder: WalletData, amount: int,
                                          deposit: bool, bundle: Text, anonymous: bool, compressed: bool,
                                          wallets: seq<(string, Json)>)
    requires c.Valid() && FitsMillis(env.now * 1000) && FitsMillis(m.createdAt * 1000)
    requires InitBuffer(env, [], Some(source), Some(middle), Some(remainder), amount, deposit) == (Ok, m.atoms)
    ensures VerifiesExactlyFor(c, printJson, m, source, bundle, anonymous, compressed, wallets)
  {
    hide VerifiesExactlyFor, Placed, IntText, Truncate, UnitsMeta;
    var plan := BufferPlan(env, source, middle, remainder, amount, deposit);
    BundleCarriable(env, source, B, "-" + IntText(Truncate(source.balance)));
    PlanVerifies(c, printJson, env, m, plan, source, bundle, anonymous, compressed, wallets);
  }

  /** So does a burn. */
  lemma {:induction false} BurnVerifies(c: Crypto, printJson: Json -> string, env: Env, m: MoleculeData,
                                        source: WalletData, remainder: WalletData, amount: int, bundle: Text,
                                        anonymous: bool, compressed: bool, wallets: seq<(string, Json)>)
    requires c.Valid() && FitsMillis(env.now * 1000) && FitsMillis(m.createdAt * 1000)
    requires InitBurn(env, [], Some(source), Some(remainder), amount) == (Ok, m.atoms)
    ensures VerifiesExactlyFor(c, printJson, m, source, bundle, anonymous, compressed, wallets)
  {
    hide VerifiesExactlyFor, Placed, IntText, Truncate, UnitsMeta;
    var plan := BurnPlan(env, source, remainder, amount);
    UnitsMetaFits(env, source.units);
    UnitsMetaFits(env, remainder.units);
    PlanVerifies(c, printJson, env, m, plan, source, bundle, anonymous, compressed, wallets);
  }

  lemma {:induction false} BundleAtomCarriable(env: Env, isotope: Isotope, position: Text, address: Text, token: Text,
                                               value: string, batchId: Text, metaId: Text, unitsText: Text)
    requires isotope != UNKNOWN
    ensures Carriable(env, BundleAtom(env, isotope, position, address, token, value, batchId, metaId, unitsText))
  {
  }

  lemma {:induction false} FusionCarriable(env: Env, text: JsonText, source: WalletData, recipient: WalletData,
                                           remainder: WalletData, ids: seq<Text>, newId: string, batches: Batches)
    requires AllFound(source.units, ids) && |ids| >= 1
    ensures var plan := FusionPlan(env, text, source, recipient, remainder, ids, newId, batches);
            FromSource(plan, source) && forall i :: 0 <= i < |plan| ==> Carriable(env, plan[i])
  {
    hide UnitsText, NewUnit, Sent, Kept, Fused, IntText, Truncate;
    var fused, kept := Fused(source.units, ids), Kept(source.units, ids);
    var balance, count := Truncate(source.balance), |ids|;
    BundleAtomCarriable(env, V, source.position, source.address, source.token, "-" + IntText(balance), source.batchId,
                        None, Some(UnitsText(text, Sent(source.units, ids))));
    BundleAtomCarriable(env, V, Some(""), Some(""), source.token, IntText(count - 1), batches.burn, Some(ZERO_BUNDLE),
                        Some(UnitsText(text, fused[..count - 1])));
    BundleAtomCarriable(env, F, Some(OrEmpty(recipient.position)), Some(OrEmpty(recipient.address)), source.token, "1",
                        batches.fusion, recipient.bundleHash, Some(UnitsText(text, [NewUnit(text, fused, newId)])));
    BundleAtomCarriable(env, V, remainder.position, remainder.address, source.token, IntText(balance - count),
                        source.batchId, remainder.bundleHash, if kept == [] then None else Some(UnitsText(text, kept)));
  }

  /** So does a fusion. */
  lemma {:induction false} FusionVerifies(c: Crypto, printJson: Json -> string, env: Env, text: JsonText, m: MoleculeData,
                                          source: WalletData, recipient: WalletData, remainder: WalletData,
                                          ids: seq<Text>, newId: Text, drawn: Batches, bundle: Text, anonymous: bool,
                                          compressed: bool, wallets: seq<(string, Json)>)
    requires c.Valid() && FitsMillis(env.now * 1000) && FitsMillis(m.createdAt * 1000)
    requires InitFuseToken(env, text, [], Some(source), Some(recipient), Some(remainder), ids, newId, drawn) == (Ok, m.atoms)
    ensures VerifiesExactlyFor(c, printJson, m, source, bundle, anonymous, compressed, wallets)
  {
    var plan := FusionSucceeds(env, text, [], source, recipient, remainder, ids, newId, drawn, m.atoms);
    FusionCarriable(env, text, source, recipient, remainder, ids, newId.value, FusionBatches(source, drawn).value);
    PlanVerifies(c, printJson, env, m, plan, source, bundle, anonymous, compressed, wallets);
  }
}
