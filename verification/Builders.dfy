/**
 The value builders on the molecule object (src/molecule.c:1808-2031, 2033-2303): each
 appends exactly what its plan in ValuePlans says, and leaves what it appended before a
 refusal.
 */
module Builders {
  import opened Basics
  import opened Decimal
  import opened Atoms
  import opened AtomObject
  import opened SigningSteps
  import opened Wallets
  import opened Molecules
  import opened ValuePlans

  function View(w: Wallet?): Option<WalletData>
    reads w, if w == null then {} else {w.tokenUnits}
  {
    if w == null then None else Some(w.Data())
  }

  /** A molecule that gained atoms has lost its hash and signature; one that gained none is as it was. */
  twostate predicate Voided(mol: Molecule)
    reads mol
  {
    (mol.molecularHash == None && !mol.isSigned) ||
    (mol.atoms == old(mol.atoms) && mol.molecularHash == old(mol.molecularHash) && mol.isSigned == old(mol.isSigned))
  }

  /** The state of a builder that has placed k atoms of its plan. */
  ghost predicate Placing(mol: Molecule, start: seq<AtomData>, plan: seq<Planned>, k: nat)
    reads mol, mol.atoms
  {
    mol.Valid() && k <= |plan| && Placed(start, plan[..k]) == (Ok, DataOf(mol.atoms))
  }

  lemma {:induction false} StartPlacing(mol: Molecule, plan: seq<Planned>)
    requires mol.Valid()
    ensures Placing(mol, DataOf(mol.atoms), plan, 0)
  {
  }

  /** After the next atom: the builder goes on with k atoms placed, or the plan has ended. */
  ghost predicate PlacedNext(mol: Molecule, error: Error, start: seq<AtomData>, plan: seq<Planned>, k: nat)
    reads mol, mol.atoms
  {
    mol.Valid() &&
    (error == Ok ==> Placing(mol, start, plan, k)) &&
    (error != Ok || k == |plan| ==> (error, DataOf(mol.atoms)) == Placed(start, plan))
  }

  /** Creates an atom, gives it its metas, and adds it. */
  method AddPlanned(mol: Molecule, env: Env, position: Text, address: Text, isotope: Isotope, token: Text, value: string,
                    batchId: Text, metaType: Text, metaId: Text, meta: seq<Meta>,
                    ghost start: seq<AtomData>, ghost plan: seq<Planned>, ghost k: nat)
    returns (error: Error)
    requires Placing(mol, start, plan, k) && k < |plan|
    requires plan[k] == PlanAtom(env, position, address, isotope, token, value, batchId, metaType, metaId, meta)
    modifies mol`atoms, mol`atomCapacity, mol`molecularHash, mol`isSigned, mol`isVerified
    ensures PlacedNext(mol, error, start, plan, k + 1)
    ensures old(mol.atoms) <= mol.atoms && Voided(mol)
  {
    var atom: Atom?;
    error, atom := Atom.Create(position, address, isotope, token, Some(value), batchId, None, None, [], env.now);
    if error != Ok {
      PlacedStep(start, plan, k);
      return error;
    }
    atom.metaType, atom.metaId, atom.meta := metaType, metaId, meta;
    assert plan[k] == Success(atom.Data());
    hide PlanAtom, Placed;
    error := AppendPlanned(mol, atom, start, plan, k);
  }

  method AppendPlanned(mol: Molecule, atom: Atom, ghost start: seq<AtomData>, ghost plan: seq<Planned>, ghost k: nat)
    returns (error: Error)
    requires Placing(mol, start, plan, k) && k < |plan| && atom !in mol.atoms && plan[k] == Success(atom.Data())
    modifies mol`atoms, mol`atomCapacity, mol`molecularHash, mol`isSigned, mol`isVerified, atom`index
    ensures PlacedNext(mol, error, start, plan, k + 1)
    ensures old(mol.atoms) <= mol.atoms && Voided(mol)
  {
    PlacedStep(start, plan, k);
    hide Placed;
    ghost var before := DataOf(mol.atoms);
    error := mol.AddAtom(atom);
    if error == Ok {
      assert DataOf(mol.atoms) == before + [plan[k].value.(index := |before|)];
    }
  }

  /** A wallet's atom under metaType walletBundle. */
  method AddBundle(mol: Molecule, env: Env, w: WalletData, isotope: Isotope, value: string,
                   ghost start: seq<AtomData>, ghost plan: seq<Planned>, ghost k: nat)
    returns (error: Error)
    requires Placing(mol, start, plan, k) && k < |plan| && plan[k] == PlanBundle(env, w, isotope, value)
    modifies mol`atoms, mol`atomCapacity, mol`molecularHash, mol`isSigned, mol`isVerified
    ensures PlacedNext(mol, error, start, plan, k + 1)
    ensures old(mol.atoms) <= mol.atoms && Voided(mol)
  {
    error := AddPlanned(mol, env, w.position, w.address, isotope, w.token, value, w.batchId, Some("walletBundle"),
                        w.bundleHash, UnitsMeta(env, w.units), start, plan, k);
  }

  /** knishio_molecule_init_value. */
  method InitValue(mol: Molecule, env: Env, recipient: Wallet?, amount: int) returns (error: Error)
    requires mol.Valid()
    requires mol.sourceWallet != null ==> InRange(mol.sourceWallet.balance, amount)
    modifies mol`atoms, mol`atomCapacity, mol`molecularHash, mol`isSigned, mol`isVerified
    ensures mol.Valid() && old(mol.atoms) <= mol.atoms && Voided(mol)
    ensures (error, DataOf(mol.atoms))
         == ValuePlans.InitValue(env, old(DataOf(mol.atoms)), View(mol.sourceWallet), View(recipient),
                                 View(mol.remainderWallet), amount)
  {
    if recipient == null {
      return InvalidArgs;
    }
    var source := mol.sourceWallet;
    if source == null {
      return InvalidState;
    }
    if source.balance < amount as real {
      return BalanceInsufficient;
    }
    error := PlaceValue(mol, env, source.Data(), recipient.Data(), View(mol.remainderWallet), amount);
  }

  method PlaceValue(mol: Molecule, env: Env, source: WalletData, recipient: WalletData,
                    remainder: Option<WalletData>, amount: int)
    returns (error: Error)
    requires mol.Valid()
    modifies mol`atoms, mol`atomCapacity, mol`molecularHash, mol`isSigned, mol`isVerified
    ensures mol.Valid() && old(mol.atoms) <= mol.atoms && Voided(mol)
    ensures (error, DataOf(mol.atoms))
         == Placed(old(DataOf(mol.atoms)), ValuePlan(env, source, recipient, remainder, amount))
  {
    hide Placed, PlanBundle, UnitsMeta, IntText;
    ghost var start := DataOf(mol.atoms);
    ghost var plan := ValuePlan(env, source, recipient, remainder, amount);
    StartPlacing(mol, plan);
    var balance := Truncate(source.balance);
    var rest := IntText(balance - amount);
    assert remainder.Some? ==> plan[2] == PlanBundle(env, remainder.value, V, rest);
    error := AddPlanned(mol, env, source.position, source.address, V, source.token, "-" + IntText(balance),
                        source.batchId, None, None, UnitsMeta(env, source.units), start, plan, 0);
    if error != Ok {
      return error;
    }
    error := AddBundle(mol, env, recipient, V, IntText(amount), start, plan, 1);
    if error != Ok {
      return error;
    }
    if remainder.Some? {
      error := AddBundle(mol, env, remainder.value, V, rest, start, plan, 2);
    }
  }

  /** knishio_molecule_init_values; amounts[i] goes to recipients[i]. */
  method InitValues(mol: Molecule, env: Env, recipients: seq<Wallet?>, amounts: seq<int>) returns (error: Error)
    requires mol.Valid() && |recipients| == |amounts| && SumsInRange(amounts)
    requires mol.sourceWallet != null ==> InRange(mol.sourceWallet.balance, Total(amounts))
    modifies mol`atoms, mol`atomCapacity, mol`molecularHash, mol`isSigned, mol`isVerified
    ensures mol.Valid() && old(mol.atoms) <= mol.atoms && Voided(mol)
    ensures (error, DataOf(mol.atoms))
         == ValuePlans.InitValues(env, old(DataOf(mol.atoms)), View(mol.sourceWallet), Views(recipients),
                                  View(mol.remainderWallet), amounts)
  {
    if |recipients| == 0 {
      return InvalidArgs;
    }
    var source, remainder := mol.sourceWallet, mol.remainderWallet;
    if source == null || remainder == null {
      return InvalidState;
    }
    var total := 0;
    for i := 0 to |amounts|
      invariant total == Total(amounts[..i])
    {
      total := total + amounts[i];
      assert amounts[..i + 1][..i] == amounts[..i];
    }
    assert amounts[..|amounts|] == amounts;
    if source.balance < total as real {
      return BalanceInsufficient;
    }
    error := PlaceValues(mol, env, source.Data(), Views(recipients), remainder.Data(), amounts, total);
  }

  method PlaceValues(mol: Molecule, env: Env, source: WalletData, recipients: seq<Option<WalletData>>, remainder: WalletData,
                     amounts: seq<int>, total: int)
    returns (error: Error)
    requires mol.Valid() && |recipients| == |amounts| && total == Total(amounts)
    modifies mol`atoms, mol`atomCapacity, mol`molecularHash, mol`isSigned, mol`isVerified
    ensures mol.Valid() && old(mol.atoms) <= mol.atoms && Voided(mol)
    ensures (error, DataOf(mol.atoms))
         == Placed(old(DataOf(mol.atoms)), ValuesPlan(env, source, recipients, remainder, amounts))
  {
    ghost var start := DataOf(mol.atoms);
    ghost var plan := ValuesPlan(env, source, recipients, remainder, amounts);
    var n := |recipients|;
    assert plan[0] == SourcePlan(env, source);
    assert plan[n + 1] == PlanBundle(env, remainder, V, IntText(Truncate(source.balance) - total));
    error := AddPlanned(mol, env, source.position, source.address, V, source.token,
                        "-" + IntText(Truncate(source.balance)), source.batchId, None, None,
                        UnitsMeta(env, source.units), start, plan, 0);
    if error != Ok {
      return error;
    }
    assert plan[1..n + 1] == RecipientPlan(env, recipients, amounts);
    error := AddRecipients(mol, env, recipients, amounts, start, plan);
    if error != Ok {
      return error;
    }
    error := AddBundle(mol, env, remainder, V, IntText(Truncate(source.balance) - total), start, plan, n + 1);
  }

  /** One atom per recipient; a missing wallet ends the loop. */
  method AddRecipients(mol: Molecule, env: Env, recipients: seq<Option<WalletData>>, amounts: seq<int>,
                       ghost start: seq<AtomData>, ghost plan: seq<Planned>)
    returns (error: Error)
    requires |recipients| == |amounts| && |plan| == |recipients| + 2 && Placing(mol, start, plan, 1)
    requires plan[1..|recipients| + 1] == RecipientPlan(env, recipients, amounts)
    modifies mol`atoms, mol`atomCapacity, mol`molecularHash, mol`isSigned, mol`isVerified
    ensures PlacedNext(mol, error, start, plan, |recipients| + 1)
    ensures old(mol.atoms) <= mol.atoms && Voided(mol)
  {
    for i := 0 to |recipients|
      invariant Placing(mol, start, plan, i + 1)
      invariant old(mol.atoms) <= mol.atoms && Voided(mol)
    {
      var recipient := recipients[i];
      assert plan[i + 1] == plan[1..|recipients| + 1][i];
      if recipient.None? {
        PlacedStep(start, plan, i + 1);
        return InvalidArgs;
      }
      error := AddBundle(mol, env, recipient.value, V, IntText(amounts[i]), start, plan, i + 1);
      if error != Ok {
        return error;
      }
    }
    return Ok;
  }

  function Views(ws: seq<Wallet?>): (views: seq<Option<WalletData>>)
    reads ws, set w <- ws | w != null :: w.tokenUnits
    ensures |views| == |ws|
    ensures forall i :: 0 <= i < |ws| ==> views[i] == View(ws[i])
  {
    seq(|ws|, i requires 0 <= i < |ws| reads ws, set w <- ws | w != null :: w.tokenUnits => View(ws[i]))
  }

  /** init_buffer_common: a deposit or a withdrawal. */
  method InitBuffer(mol: Molecule, env: Env, middle: Wallet?, amount: int, deposit: bool) returns (error: Error)
    requires mol.Valid()
    requires mol.sourceWallet != null ==> InRange(mol.sourceWallet.balance, amount)
    modifies mol`atoms, mol`atomCapacity, mol`molecularHash, mol`isSigned, mol`isVerified
    ensures mol.Valid() && old(mol.atoms) <= mol.atoms && Voided(mol)
    ensures (error, DataOf(mol.atoms))
         == ValuePlans.InitBuffer(env, old(DataOf(mol.atoms)), View(mol.sourceWallet), View(middle),
                                  View(mol.remainderWallet), amount, deposit)
  {
    if middle == null {
      return InvalidArgs;
    }
    var source, remainder := mol.sourceWallet, mol.remainderWallet;
    if source == null || remainder == null {
      return InvalidState;
    }
    if amount < 0 {
      return InvalidArgs;
    }
    if source.balance < amount as real {
      return BalanceInsufficient;
    }
    error := PlaceBuffer(mol, env, source.Data(), middle.Data(), remainder.Data(), amount, deposit);
  }

  method AddBufferSource(mol: Molecule, env: Env, source: WalletData, deposit: bool,
                         ghost start: seq<AtomData>, ghost plan: seq<Planned>)
    returns (error: Error)
    requires Placing(mol, start, plan, 0) && plan != [] && plan[0] == BufferSource(env, source, deposit)
    modifies mol`atoms, mol`atomCapacity, mol`molecularHash, mol`isSigned, mol`isVerified
    ensures PlacedNext(mol, error, start, plan, 1)
    ensures old(mol.atoms) <= mol.atoms && Voided(mol)
  {
    var debit := "-" + IntText(Truncate(source.balance));
    if deposit {
      error := AddPlanned(mol, env, source.position, source.address, V, source.token, debit, source.batchId, None, None,
                          [], start, plan, 0);
    } else {
      error := AddBundle(mol, env, source, B, debit, start, plan, 0);
    }
  }

  method PlaceBuffer(mol: Molecule, env: Env, source: WalletData, middle: WalletData, remainder: WalletData, amount: int,
                     deposit: bool)
    returns (error: Error)
    requires mol.Valid()
    modifies mol`atoms, mol`atomCapacity, mol`molecularHash, mol`isSigned, mol`isVerified
    ensures mol.Valid() && old(mol.atoms) <= mol.atoms && Voided(mol)
    ensures (error, DataOf(mol.atoms))
         == Placed(old(DataOf(mol.atoms)), BufferPlan(env, source, middle, remainder, amount, deposit))
  {
    hide Placed, PlanAtom, UnitsMeta, IntText;
    ghost var start := DataOf(mol.atoms);
    ghost var plan := BufferPlan(env, source, middle, remainder, amount, deposit);
    StartPlacing(mol, plan);
    var outer, inner := if deposit then V else B, if deposit then B else V;
    var token, bundle := if deposit then middle.token else source.token, if deposit then source.bundleHash else middle.bundleHash;
    var remainderBundle := if deposit then source.bundleHash else remainder.bundleHash;
    var rest := IntText(Truncate(source.balance) - amount);
    assert plan[1] == PlanAtom(env, middle.position, middle.address, inner, token, IntText(amount), middle.batchId,
                               Some("walletBundle"), bundle, []);
    assert plan[2] == PlanAtom(env, remainder.position, remainder.address, outer, remainder.token, rest,
                               remainder.batchId, Some("walletBundle"), remainderBundle, []);
    error := AddBufferSource(mol, env, source, deposit, start, plan);
    if error != Ok {
      return error;
    }
    error := AddPlanned(mol, env, middle.position, middle.address, inner, token, IntText(amount), middle.batchId,
                        Some("walletBundle"), bundle, [], start, plan, 1);
    if error != Ok {
      return error;
    }
    error := AddPlanned(mol, env, remainder.position, remainder.address, outer, remainder.token, rest,
                        remainder.batchId, Some("walletBundle"), remainderBundle, [], start, plan, 2);
  }

  /** knishio_molecule_init_burn. */
  method InitBurn(mol: Molecule, env: Env, amount: int) returns (error: Error)
    requires mol.Valid()
    requires mol.sourceWallet != null ==> InRange(mol.sourceWallet.balance, amount)
    modifies mol`atoms, mol`atomCapacity, mol`molecularHash, mol`isSigned, mol`isVerified
    ensures mol.Valid() && old(mol.atoms) <= mol.atoms && Voided(mol)
    ensures (error, DataOf(mol.atoms))
         == ValuePlans.InitBurn(env, old(DataOf(mol.atoms)), View(mol.sourceWallet), View(mol.remainderWallet), amount)
  {
    var source, remainder := mol.sourceWallet, mol.remainderWallet;
    if source == null || remainder == null {
      return InvalidState;
    }
    if source.balance < amount as real {
      return BalanceInsufficient;
    }
    error := PlaceBurn(mol, env, source.Data(), remainder.Data(), amount);
  }

  method PlaceBurn(mol: Molecule, env: Env, source: WalletData, remainder: WalletData, amount: int) returns (error: Error)
    requires mol.Valid()
    modifies mol`atoms, mol`atomCapacity, mol`molecularHash, mol`isSigned, mol`isVerified
    ensures mol.Valid() && old(mol.atoms) <= mol.atoms && Voided(mol)
    ensures (error, DataOf(mol.atoms))
         == Placed(old(DataOf(mol.atoms)), BurnPlan(env, source, remainder, amount))
  {
    hide Placed, PlanAtom, UnitsMeta, IntText;
    ghost var start := DataOf(mol.atoms);
    ghost var plan := BurnPlan(env, source, remainder, amount);
    StartPlacing(mol, plan);
    var balance := Truncate(source.balance);
    error := AddPlanned(mol, env, source.position, source.address, V, source.token, "-" + IntText(balance), None, None,
                        None, UnitsMeta(env, source.units), start, plan, 0);
    if error != Ok {
      return error;
    }
    error := AddPlanned(mol, env, Some(""), Some(""), V, source.token, IntText(amount), None, Some("walletBundle"),
                        Some(ZERO_BUNDLE), [], start, plan, 1);
    if error != Ok {
      return error;
    }
    error := AddPlanned(mol, env, remainder.position, remainder.address, V, remainder.token, IntText(balance - amount),
                        None, Some("walletBundle"), remainder.bundleHash, UnitsMeta(env, remainder.units), start,
                        plan, 2);
  }

  /** Balance, amount and their difference are ints, so that the C arithmetic is defined. */
  predicate InRange(balance: real, amount: int) {
    IsInt(Truncate(balance)) && IsInt(amount) && IsInt(Truncate(balance) - amount)
  }

  /** Every partial sum of the amounts is an int. */
  predicate SumsInRange(amounts: seq<int>) {
    forall k :: 0 <= k <= |amounts| ==> IsInt(Total(amounts[..k]))
  }
}
