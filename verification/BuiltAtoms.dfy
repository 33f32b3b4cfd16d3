/**
 The atoms the value builders append, field by field (src/molecule.c:1382-1400, 1808-2303,
 2516-2649): position, isotope, batch, bundle and token units, and when there are any.
 */
module BuiltAtoms {
  import opened Basics
  import opened Decimal
  import opened Atoms
  import opened ValuePlans
  import opened Fusion
  import opened Wallets

  /** A new atom of a wallet. */
  predicate IsOf(env: Env, a: AtomData, w: WalletData, isotope: Isotope, token: Text, batchId: Text) {
    a.position == w.position && a.walletAddress == w.address && a.token == token && a.isotope == isotope &&
    a.batchId == batchId && a.version.None? && a.otsFragment.None? && a.createdAt == env.now && a.createdAtMs == 0
  }

  predicate Unbundled(a: AtomData) {
    a.metaType.None? && a.metaId.None?
  }

  predicate Bundled(a: AtomData, bundle: Text) {
    a.metaType == Some("walletBundle") && a.metaId == bundle
  }

  /** The units travel with the atom, unless there are none or their text is too long for a meta. */
  predicate HasUnits(env: Env, a: AtomData, units: seq<TokenUnit>) {
    a.meta == if units != [] && |env.unitsText(units)| <= 4096
              then [Meta(Some("tokenUnits"), Some(env.unitsText(units)))] else []
  }

  /** One planned atom in its place. */
  lemma {:induction false} InPlace(atoms: seq<AtomData>, plan: seq<Planned>, placed: seq<AtomData>, k: nat)
    requires Refusals(plan) && Placed(atoms, plan) == (Ok, placed) && k < |plan|
    ensures |placed| == |atoms| + |plan| && plan[k].Success? && placed[|atoms| + k] == plan[k].value.(index := |atoms| + k)
  {
    PlacedWhole(atoms, plan);
  }

  /** The debit of a transfer. */
  predicate PaysUnits(env: Env, a: AtomData, source: WalletData) {
    IsOf(env, a, source, V, source.token, source.batchId) && Unbundled(a) && HasUnits(env, a, source.units)
  }

  /** A credit under the wallet's bundle. */
  predicate GetsUnits(env: Env, a: AtomData, w: WalletData) {
    IsOf(env, a, w, V, w.token, w.batchId) && Bundled(a, w.bundleHash) && HasUnits(env, a, w.units)
  }

  lemma {:induction false} SourceAtom(env: Env, source: WalletData, i: int)
    ensures var p := SourcePlan(env, source);
            (p.Success? ==> PaysUnits(env, p.value.(index := i), source)) && (p.Failure? ==> p.error == InvalidArgs)
  {
  }

  lemma {:induction false} BundleAtomOf(env: Env, w: WalletData, value: string, i: int)
    ensures var p := PlanBundle(env, w, V, value);
            (p.Success? ==> GetsUnits(env, p.value.(index := i), w)) && (p.Failure? ==> p.error == InvalidArgs)
  {
  }

  /** The units of the source, the recipient and the remainder go with their atoms. */
  lemma {:induction false} TransferAtoms(env: Env, atoms: seq<AtomData>, source: WalletData, recipient: WalletData,
                                         remainder: Option<WalletData>, amount: int, placed: seq<AtomData>)
    requires InitValue(env, atoms, Some(source), Some(recipient), remainder, amount) == (Ok, placed)
    ensures var n := |atoms|;
            |placed| == n + (if remainder.Some? then 3 else 2) && PaysUnits(env, placed[n], source) &&
            GetsUnits(env, placed[n + 1], recipient) &&
            (remainder.Some? ==> GetsUnits(env, placed[n + 2], remainder.value))
  {
    hide PaysUnits, GetsUnits, Placed, Truncate, IntText, SourcePlan, PlanBundle;
    var plan, n := ValuePlan(env, source, recipient, remainder, amount), |atoms|;
    SourceAtom(env, source, n);
    BundleAtomOf(env, recipient, IntText(amount), n + 1);
    if remainder.Some? {
      BundleAtomOf(env, remainder.value, IntText(Truncate(source.balance) - amount), n + 2);
      InPlace(atoms, plan, placed, 2);
    }
    InPlace(atoms, plan, placed, 0);
    InPlace(atoms, plan, placed, 1);
  }

  /** And those of every recipient of a multi-transfer. */
  lemma {:induction false} MultiTransferAtoms(env: Env, atoms: seq<AtomData>, source: WalletData,
                                              recipients: seq<Option<WalletData>>, remainder: WalletData,
                                              amounts: seq<int>, placed: seq<AtomData>)
    requires |recipients| == |amounts|
    requires InitValues(env, atoms, Some(source), recipients, Some(remainder), amounts) == (Ok, placed)
    ensures var n, count := |atoms|, |recipients|;
            |placed| == n + count + 2 && PaysUnits(env, placed[n], source) &&
            GetsUnits(env, placed[n + count + 1], remainder) &&
            forall i :: 0 <= i < count ==> recipients[i].Some? && GetsUnits(env, placed[n + 1 + i], recipients[i].value)
  {
    hide PaysUnits, GetsUnits, Placed, Truncate, IntText, SourcePlan, PlanBundle, Total, Credits, HoldersOf;
    var plan, n, count := ValuesPlan(env, source, recipients, remainder, amounts), |atoms|, |recipients|;
    ValuesBooked(env, source, recipients, remainder, amounts);
    SourceAtom(env, source, n);
    BundleAtomOf(env, remainder, IntText(Truncate(source.balance) - Total(amounts)), n + count + 1);
    InPlace(atoms, plan, placed, 0);
    InPlace(atoms, plan, placed, count + 1);
    assert plan[0] == SourcePlan(env, source);
    assert plan[count + 1] == PlanBundle(env, remainder, V, IntText(Truncate(source.balance) - Total(amounts)));
    forall i | 0 <= i < count ensures recipients[i].Some? && GetsUnits(env, placed[n + 1 + i], recipients[i].value) {
      InPlace(atoms, plan, placed, i + 1);
      assert plan[i + 1] == RecipientPlan(env, recipients, amounts)[i];
      if recipients[i].Some? {
        BundleAtomOf(env, recipients[i].value, IntText(amounts[i]), n + 1 + i);
      }
    }
  }

  /** A deposit's atoms carry no units; a withdrawal's debit carries the source's, under its bundle. */
  lemma {:induction false} BufferAtoms(env: Env, atoms: seq<AtomData>, source: WalletData, middle: WalletData,
                                       remainder: WalletData, amount: int, deposit: bool, placed: seq<AtomData>)
    requires InitBuffer(env, atoms, Some(source), Some(middle), Some(remainder), amount, deposit) == (Ok, placed)
    ensures var n := |atoms|;
            |placed| == n + 3 && placed[n + 1].meta == [] && placed[n + 2].meta == [] &&
            IsOf(env, placed[n], source, if deposit then V else B, source.token, source.batchId) &&
            (if deposit then Unbundled(placed[n]) && placed[n].meta == []
             else Bundled(placed[n], source.bundleHash) && HasUnits(env, placed[n], source.units)) &&
            IsOf(env, placed[n + 1], middle, if deposit then B else V, if deposit then middle.token else source.token,
                 middle.batchId) &&
            Bundled(placed[n + 1], if deposit then source.bundleHash else middle.bundleHash) &&
            IsOf(env, placed[n + 2], remainder, if deposit then V else B, remainder.token, remainder.batchId) &&
            Bundled(placed[n + 2], if deposit then source.bundleHash else remainder.bundleHash)
  {
    hide Placed, Truncate, IntText;
    var plan := BufferPlan(env, source, middle, remainder, amount, deposit);
    InPlace(atoms, plan, placed, 0);
    InPlace(atoms, plan, placed, 1);
    InPlace(atoms, plan, placed, 2);
  }

  /** A burn's source and remainder carry their units, the burned amount none; no atom has a batch. */
  lemma {:induction false} BurnAtoms(env: Env, atoms: seq<AtomData>, source: WalletData, remainder: WalletData,
                                     amount: int, placed: seq<AtomData>)
    requires InitBurn(env, atoms, Some(source), Some(remainder), amount) == (Ok, placed)
    ensures var n := |atoms|;
            |placed| == n + 3 &&
            IsOf(env, placed[n], source, V, source.token, None) && Unbundled(placed[n]) &&
            HasUnits(env, placed[n], source.units) &&
            placed[n + 1].position == placed[n + 1].walletAddress == Some("") && placed[n + 1].isotope == V &&
            placed[n + 1].token == source.token && placed[n + 1].batchId.None? && placed[n + 1].meta == [] &&
            Bundled(placed[n + 1], Some("0000000000000000000000000000000000000000000000000000000000000000")) &&
            IsOf(env, placed[n + 2], remainder, V, remainder.token, None) &&
            Bundled(placed[n + 2], remainder.bundleHash) && HasUnits(env, placed[n + 2], remainder.units)
  {
    hide Placed, Truncate, IntText;
    var plan := BurnPlan(env, source, remainder, amount);
    InPlace(atoms, plan, placed, 0);
    InPlace(atoms, plan, placed, 1);
    InPlace(atoms, plan, placed, 2);
  }

  /** A new atom of these fields, under a bundle if there is one. */
  predicate HasFields(env: Env, a: AtomData, position: Text, address: Text, isotope: Isotope, token: Text, value: string,
                      batchId: Text, bundle: Text) {
    a.position == position && a.walletAddress == address && a.isotope == isotope && a.token == token &&
    a.value == Some(value) && a.batchId == batchId && a.version.None? && a.otsFragment.None? &&
    a.createdAt == env.now && a.createdAtMs == 0 && (if bundle.Some? then Bundled(a, bundle) else Unbundled(a))
  }

  lemma {:induction false} BundleAtomHas(env: Env, isotope: Isotope, position: Text, address: Text, token: Text,
                                         value: string, batchId: Text, bundle: Text, unitsText: Text)
    ensures var p := BundleAtom(env, isotope, position, address, token, value, batchId, bundle, unitsText);
            p.Success? ==> HasFields(env, p.value, position, address, isotope, token, value, batchId, bundle)
  {
  }

  /** The four atoms of a fusion: all in the source's token, batches drawn only for a source that has one. */
  ghost predicate FusionFields(env: Env, four: seq<AtomData>, source: WalletData, recipient: WalletData,
                               remainder: WalletData, count: int, drawn: Batches)
    requires |four| == 4
  {
    var batched, balance := OrEmpty(source.batchId) != "", Truncate(source.balance);
    HasFields(env, four[0], source.position, source.address, V, source.token, "-" + IntText(balance), source.batchId,
              None) &&
    HasFields(env, four[1], Some(""), Some(""), V, source.token, IntText(count - 1),
              if batched then drawn.burn else None,
              Some("0000000000000000000000000000000000000000000000000000000000000000")) &&
    HasFields(env, four[2], Some(OrEmpty(recipient.position)), Some(OrEmpty(recipient.address)), F, source.token, "1",
              if batched then drawn.fusion else None, recipient.bundleHash) &&
    HasFields(env, four[3], remainder.position, remainder.address, V, source.token, IntText(balance - count),
              source.batchId, remainder.bundleHash)
  }

  lemma {:induction false} FusionAtoms(env: Env, text: JsonText, atoms: seq<AtomData>, source: WalletData,
                                       recipient: WalletData, remainder: WalletData, ids: seq<Text>, newId: Text,
                                       drawn: Batches, placed: seq<AtomData>)
    requires InitFuseToken(env, text, atoms, Some(source), Some(recipient), Some(remainder), ids, newId, drawn) == (Ok, placed)
    ensures |placed| == |atoms| + 4 &&
            FusionFields(env, placed[|atoms|..], source, recipient, remainder, |ids|, drawn)
  {
    var plan := FusionSucceeds(env, text, atoms, source, recipient, remainder, ids, newId, drawn, placed);
    var batches := FusionBatches(source, drawn).value;
    hide *;
    var four := FourInPlace(atoms, plan, placed);
    FusionPlanned(env, text, source, recipient, remainder, ids, newId.value, drawn, plan, four);
    Renumbered(env, four, placed[|atoms|..], source, recipient, remainder, |ids|, drawn);
  }

  lemma {:induction false} FourInPlace(atoms: seq<AtomData>, plan: seq<Planned>, placed: seq<AtomData>)
    returns (four: seq<AtomData>)
    requires |plan| == 4 && Refusals(plan) && Placed(atoms, plan) == (Ok, placed)
    ensures |four| == 4 && forall i :: 0 <= i < 4 ==> plan[i] == Success(four[i])
    ensures |placed| == |atoms| + 4
    ensures forall i :: 0 <= i < 4 ==> placed[|atoms|..][i] == four[i].(index := placed[|atoms|..][i].index)
  {
    hide Placed;
    InPlace(atoms, plan, placed, 0);
    InPlace(atoms, plan, placed, 1);
    InPlace(atoms, plan, placed, 2);
    InPlace(atoms, plan, placed, 3);
    four := [plan[0].value, plan[1].value, plan[2].value, plan[3].value];
  }

  lemma {:induction false} FusionPlanned(env: Env, text: JsonText, source: WalletData, recipient: WalletData,
                                         remainder: WalletData, ids: seq<Text>, newId: string, drawn: Batches,
                                         plan: seq<Planned>, four: seq<AtomData>)
    requires AllFound(source.units, ids) && |ids| >= 1 && FusionBatches(source, drawn).Some?
    requires plan == FusionPlan(env, text, source, recipient, remainder, ids, newId, FusionBatches(source, drawn).value)
    requires |four| == 4 && forall i :: 0 <= i < 4 ==> plan[i] == Success(four[i])
    ensures FusionFields(env, four, source, recipient, remainder, |ids|, drawn)
  {
    hide Truncate, IntText, UnitsText, NewUnit, Sent, Kept, Fused, BundleAtom, HasFields;
    var batches, balance := FusionBatches(source, drawn).value, Truncate(source.balance);
    var units, kept := Fused(source.units, ids), Kept(source.units, ids);
    BundleAtomHas(env, V, source.position, source.address, source.token, "-" + IntText(balance), source.batchId, None,
                  Some(UnitsText(text, Sent(source.units, ids))));
    BundleAtomHas(env, V, Some(""), Some(""), source.token, IntText(|ids| - 1), batches.burn, Some(ZERO_BUNDLE),
                  Some(UnitsText(text, units[..|ids| - 1])));
    BundleAtomHas(env, F, Some(OrEmpty(recipient.position)), Some(OrEmpty(recipient.address)), source.token, "1",
                  batches.fusion, recipient.bundleHash, Some(UnitsText(text, [NewUnit(text, units, newId)])));
    BundleAtomHas(env, V, remainder.position, remainder.address, source.token, IntText(balance - |ids|), source.batchId,
                  remainder.bundleHash, if kept == [] then None else Some(UnitsText(text, kept)));
  }

  /** The index is none of the fields. */
  lemma {:induction false} Renumbered(env: Env, four: seq<AtomData>, placed: seq<AtomData>, source: WalletData,
                                      recipient: WalletData, remainder: WalletData, count: int, drawn: Batches)
    requires |four| == |placed| == 4 && FusionFields(env, four, source, recipient, remainder, count, drawn)
    requires forall i :: 0 <= i < 4 ==> placed[i] == four[i].(index := placed[i].index)
    ensures FusionFields(env, placed, source, recipient, remainder, count, drawn)
  {
    hide IntText, Truncate;
  }

  // ---------------------------------------------------------------- what the builders answer

  /** The wallet's token, position and address make an atom. */
  predicate CanHaveAtom(w: WalletData) {
    w.token.Some? && w.position.Some? && w.address.Some? && |w.position.value| in {0, 64} && |w.address.value| in {0, 64}
  }

  /** A plan that refuses an atom with InvalidArgs only. */
  lemma {:induction false} PlanAnswers(atoms: seq<AtomData>, plan: seq<Planned>)
    requires forall i :: 0 <= i < |plan| && plan[i].Failure? ==> plan[i].error == InvalidArgs
    ensures Placed(atoms, plan).0 == Ok || Placed(atoms, plan).0 == InvalidArgs
    ensures Placed(atoms, plan).0 == Ok <==>
              (forall i :: 0 <= i < |plan| ==> plan[i].Success?) && (plan == [] || |atoms| + |plan| <= 256)
    ensures atoms <= Placed(atoms, plan).1
  {
    PlacedWhole(atoms, plan);
    if plan != [] {
      PlanAnswers(atoms, plan[..|plan| - 1]);
    }
  }

  /** A planned atom that is there or refused with InvalidArgs, and which. */
  predicate Answers(p: Planned, possible: bool) {
    if possible then p.Success? else p == Failure(InvalidArgs)
  }

  lemma {:induction false} FewAnswer(atoms: seq<AtomData>, plan: seq<Planned>, a: bool, b: bool, c: bool)
    requires 2 <= |plan| <= 3 && Answers(plan[0], a) && Answers(plan[1], b) && (|plan| == 3 ==> Answers(plan[2], c))
    ensures Accepted(atoms, Placed(atoms, plan), a && b && (|plan| == 3 ==> c) && |atoms| + |plan| <= 256)
  {
    hide Placed;
    PlanAnswers(atoms, plan);
    assert plan[0].Success? && plan[1].Success? && (|plan| == 3 ==> plan[2].Success?) <==>
           forall i :: 0 <= i < |plan| ==> plan[i].Success?;
  }

  /** Accepted, or refused on the way with what was placed before. */
  ghost predicate Accepted(atoms: seq<AtomData>, outcome: (Error, seq<AtomData>), possible: bool) {
    atoms <= outcome.1 && if possible then outcome.0 == Ok else outcome.0 == InvalidArgs
  }

  lemma {:induction false} PlannedFor(env: Env, w: WalletData, value: string)
    ensures Answers(SourcePlan(env, w), CanHaveAtom(w)) && Answers(PlanBundle(env, w, V, value), CanHaveAtom(w))
  {
  }

  /** What a transfer answers, for any wallets: it is accepted exactly with a covered amount, atoms for all and room. */
  lemma {:induction false} TransferAnswers(env: Env, atoms: seq<AtomData>, source: Option<WalletData>,
                                           recipient: Option<WalletData>, remainder: Option<WalletData>, amount: int)
    ensures var outcome := InitValue(env, atoms, source, recipient, remainder, amount);
            if recipient.None? then outcome == (InvalidArgs, atoms)
            else if source.None? then outcome == (InvalidState, atoms)
            else if amount as real > source.value.balance then outcome == (BalanceInsufficient, atoms)
            else
              Accepted(atoms, outcome,
                       CanHaveAtom(source.value) && CanHaveAtom(recipient.value) &&
                       (remainder.Some? ==> CanHaveAtom(remainder.value)) &&
                       |atoms| + (if remainder.Some? then 3 else 2) <= 256)
  {
    hide Placed, Truncate, IntText, SourcePlan, PlanBundle, CanHaveAtom, Accepted, Answers;
    if source.Some? && recipient.Some? {
      var s, r, rest := source.value, recipient.value, Truncate(source.value.balance) - amount;
      PlannedFor(env, s, "");
      PlannedFor(env, r, IntText(amount));
      if remainder.Some? {
        PlannedFor(env, remainder.value, IntText(rest));
      }
      FewAnswer(atoms, ValuePlan(env, s, r, remainder, amount), CanHaveAtom(s), CanHaveAtom(r),
                remainder.Some? && CanHaveAtom(remainder.value));
    }
  }

  /** What a multi-transfer answers. */
  lemma {:induction false} MultiTransferAnswers(env: Env, atoms: seq<AtomData>, source: Option<WalletData>,
                                                recipients: seq<Option<WalletData>>, remainder: Option<WalletData>,
                                                amounts: seq<int>)
    requires |recipients| == |amounts|
    ensures var outcome := InitValues(env, atoms, source, recipients, remainder, amounts);
            if recipients == [] then outcome == (InvalidArgs, atoms)
            else if source.None? || remainder.None? then outcome == (InvalidState, atoms)
            else if Total(amounts) as real > source.value.balance then outcome == (BalanceInsufficient, atoms)
            else
              Accepted(atoms, outcome,
                       CanHaveAtom(source.value) && CanHaveAtom(remainder.value) &&
                       CanHaveAll(recipients) &&
                       |atoms| + |recipients| + 2 <= 256)
  {
    hide Placed, Truncate, IntText, SourcePlan, PlanBundle, CanHaveAtom, Total, Accepted, RecipientPlan;
    if source.Some? && remainder.Some? {
      var s, rest := source.value, IntText(Truncate(source.value.balance) - Total(amounts));
      PlannedFor(env, s, "");
      PlannedFor(env, remainder.value, rest);
      RecipientsAnswer(env, recipients, amounts);
      ManyAnswer(atoms, SourcePlan(env, s), RecipientPlan(env, recipients, amounts),
                 PlanBundle(env, remainder.value, V, rest), CanHaveAtom(s), CanHaveAll(recipients), CanHaveAtom(remainder.value));
    }
  }

  predicate CanHaveAll(recipients: seq<Option<WalletData>>) {
    forall i :: 0 <= i < |recipients| ==> recipients[i].Some? && CanHaveAtom(recipients[i].value)
  }

  /** Refused with InvalidArgs, and everywhere possible exactly when it is. */
  ghost predicate AllAnswer(plan: seq<Planned>, possible: bool) {
    (forall i :: 0 <= i < |plan| && plan[i].Failure? ==> plan[i].error == InvalidArgs) &&
    ((forall i :: 0 <= i < |plan| ==> plan[i].Success?) <==> possible)
  }

  lemma {:induction false} RecipientsAnswer(env: Env, recipients: seq<Option<WalletData>>, amounts: seq<int>)
    requires |recipients| == |amounts|
    ensures AllAnswer(RecipientPlan(env, recipients, amounts), CanHaveAll(recipients))
  {
    hide PlanBundle, CanHaveAtom, IntText;
    var plan := RecipientPlan(env, recipients, amounts);
    forall i | 0 <= i < |recipients|
      ensures Answers(plan[i], recipients[i].Some? && CanHaveAtom(recipients[i].value))
    {
      if recipients[i].Some? {
        PlannedFor(env, recipients[i].value, IntText(amounts[i]));
      }
    }
  }

  lemma {:induction false} ManyAnswer(atoms: seq<AtomData>, first: Planned, middle: seq<Planned>, last: Planned, a: bool,
                                      b: bool, c: bool)
    requires Answers(first, a) && AllAnswer(middle, b) && Answers(last, c)
    ensures var plan := [first] + middle + [last];
            Accepted(atoms, Placed(atoms, plan), a && b && c && |atoms| + |middle| + 2 <= 256)
  {
    hide Placed;
    var plan := [first] + middle + [last];
    assert plan[0] == first && plan[|middle| + 1] == last;
    assert forall i :: 0 <= i < |middle| ==> middle[i] == plan[1..|middle| + 1][i];
    forall i | 0 <= i < |plan| ensures i == 0 || i == |middle| + 1 || (i - 1 < |middle| && plan[i] == middle[i - 1]) {
    }
    PlanAnswers(atoms, plan);
    if !b {
      var i :| 0 <= i < |middle| && middle[i].Failure?;
      assert plan[i + 1] == middle[i];
    }
  }

  /** What a deposit or withdrawal answers; a withdrawal's middle atom is in the source's token. */
  lemma {:induction false} BufferAnswers(env: Env, atoms: seq<AtomData>, source: Option<WalletData>,
                                         middle: Option<WalletData>, remainder: Option<WalletData>, amount: int,
                                         deposit: bool)
    ensures var outcome := InitBuffer(env, atoms, source, middle, remainder, amount, deposit);
            if middle.None? then outcome == (InvalidArgs, atoms)
            else if source.None? || remainder.None? then outcome == (InvalidState, atoms)
            else if amount < 0 then outcome == (InvalidArgs, atoms)
            else if amount as real > source.value.balance then outcome == (BalanceInsufficient, atoms)
            else
              Accepted(atoms, outcome,
                       CanHaveAtom(source.value) && CanHaveAtom(remainder.value) &&
                       CanHaveAtom(if deposit then middle.value else middle.value.(token := source.value.token)) &&
                       |atoms| + 3 <= 256)
  {
    hide Placed, Truncate, IntText, UnitsMeta, Accepted;
    if middle.Some? && source.Some? && remainder.Some? {
      FewAnswer(atoms, BufferPlan(env, source.value, middle.value, remainder.value, amount, deposit),
                CanHaveAtom(source.value),
                CanHaveAtom(if deposit then middle.value else middle.value.(token := source.value.token)),
                CanHaveAtom(remainder.value));
    }
  }

  /** What a burn answers. */
  lemma {:induction false} BurnAnswers(env: Env, atoms: seq<AtomData>, source: Option<WalletData>,
                                       remainder: Option<WalletData>, amount: int)
    ensures var outcome := InitBurn(env, atoms, source, remainder, amount);
            if source.None? || remainder.None? then outcome == (InvalidState, atoms)
            else if amount as real > source.value.balance then outcome == (BalanceInsufficient, atoms)
            else Accepted(atoms, outcome, CanHaveAtom(source.value) && CanHaveAtom(remainder.value) && |atoms| + 3 <= 256)
  {
    hide Placed, Truncate, IntText, UnitsMeta, Accepted;
    if source.Some? && remainder.Some? {
      FewAnswer(atoms, BurnPlan(env, source.value, remainder.value, amount), CanHaveAtom(source.value),
                source.value.token.Some?, CanHaveAtom(remainder.value));
    }
  }
}
