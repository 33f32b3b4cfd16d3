/**
 What the value builders append (src/molecule.c:1808-2031, 2033-2303), as plans: the
 atoms in order, each with its text value, placed until one is refused. The main results
 say when the appended values sum to zero.
 */
module ValuePlans {
  import opened Basics
  import opened Digits
  import opened Decimal
  import opened Atoms
  import opened AtomJson
  import opened AtomObject
  import opened Signing
  import opened Wallets

  const ZERO_BUNDLE := "0000000000000000000000000000000000000000000000000000000000000000"

  /** The conversion of a double to int: toward zero. */
  function Truncate(r: real): int {
    if r >= 0.0 then r.Floor else -(-r).Floor
  }

  lemma {:induction false} TruncateAtLeast(r: real, n: int)
    requires r >= n as real
    ensures Truncate(r) >= n
    ensures Truncate(r) >= 0 <==> r > -1.0
  {
  }

  /** The whole number next to it on the side of zero. */
  lemma {:induction false} TruncateTowardZero(r: real)
    ensures r >= 0.0 ==> 0 <= Truncate(r) && Truncate(r) as real <= r < Truncate(r) as real + 1.0
    ensures r < 0.0 ==> 0 >= Truncate(r) && Truncate(r) as real - 1.0 < r <= Truncate(r) as real
  {
  }

  /** The integer a value denotes: an optional minus sign and decimal digits. */
  function ValueOfText(t: Text): Option<int> {
    if t.None? then None
    else if t.value != "" && IsNumeral(10, t.value) then Some(NumeralValue(10, t.value))
    else if |t.value| > 1 && t.value[0] == '-' && IsNumeral(10, t.value[1..]) then Some(-NumeralValue(10, t.value[1..]))
    else None
  }

  lemma {:induction false} ValueOfInt(v: int)
    ensures ValueOfText(Some(IntText(v))) == Some(v)
  {
    var m: nat := if v < 0 then -v else v;
    NatTextValue(m);
    if v < 0 {
      assert ("-" + NatText(m))[1..] == NatText(m);
      assert DigitOf('-') >= 10 && !IsNumeral(10, "-" + NatText(m)) by {
        assert ("-" + NatText(m))[0] == '-';
      }
    }
  }

  /** The debit "-%d" is a number exactly when the balance has no minus sign of its own. */
  lemma {:induction false} ValueOfDebit(balance: int)
    ensures ValueOfText(Some("-" + IntText(balance))) == if balance >= 0 then Some(-balance) else None
  {
    var text := "-" + IntText(balance);
    assert text[0] == '-' && DigitOf('-') >= 10 && text[1..] == IntText(balance);
    assert !IsNumeral(10, text);
    if balance >= 0 {
      NatTextValue(balance);
    } else {
      assert IntText(balance)[0] == '-' && !IsNumeral(10, IntText(balance));
    }
  }

  /** Whose account an atom moves: its address and token, and the bundle its metaId names. */
  datatype Party = Party(address: Text, token: Text, bundle: Text)

  /** What an atom moves: an account, and its value if that is a number. */
  datatype Entry = Entry(party: Party, amount: Option<int>)

  function PartyOf(a: AtomData): Party {
    Party(a.walletAddress, a.token, a.metaId)
  }

  function EntryOf(a: AtomData): Entry {
    Entry(PartyOf(a), ValueOfText(a.value))
  }

  /** A wallet under its own bundle. */
  function Holder(w: WalletData): Party {
    Party(w.address, w.token, w.bundleHash)
  }

  /** A wallet without a bundle, as the source of a transfer. */
  function Payer(w: WalletData): Party {
    Party(w.address, w.token, None)
  }

  function Ledger(atoms: seq<AtomData>): (entries: seq<Entry>)
    ensures |entries| == |atoms|
  {
    seq(|atoms|, i requires 0 <= i < |atoms| => EntryOf(atoms[i]))
  }

  /** The sum of the values, if every one is a number. */
  function Sum(entries: seq<Entry>): Option<int> {
    if entries == [] then Some(0)
    else
      var front, last := Sum(entries[..|entries| - 1]), entries[|entries| - 1].amount;
      if front.Some? && last.Some? then Some(front.value + last.value) else None
  }

  function Total(amounts: seq<int>): int {
    if amounts == [] then 0 else Total(amounts[..|amounts| - 1]) + amounts[|amounts| - 1]
  }

  /** The entry of the debit "-%d" of a balance: not a number when the balance is negative. */
  function Debit(party: Party, balance: int): Entry {
    Entry(party, if balance >= 0 then Some(-balance) else None)
  }

  /** amounts[i] goes to parties[i]. */
  function Credits(parties: seq<Party>, amounts: seq<int>): (entries: seq<Entry>)
    requires |parties| == |amounts|
    ensures |entries| == |amounts|
  {
    seq(|amounts|, i requires 0 <= i < |amounts| => Entry(parties[i], Some(amounts[i])))
  }

  lemma {:induction false} SumSnoc(entries: seq<Entry>, e: Entry)
    ensures Sum(entries + [e])
         == if Sum(entries).Some? && e.amount.Some? then Some(Sum(entries).value + e.amount.value) else None
  {
    assert (entries + [e])[..|entries|] == entries;
  }

  /** A debit followed by credits. */
  lemma {:induction false} SumCredits(first: Entry, parties: seq<Party>, amounts: seq<int>)
    requires |parties| == |amounts|
    ensures Sum([first] + Credits(parties, amounts))
         == if first.amount.None? then None else Some(first.amount.value + Total(amounts))
  {
    if amounts == [] {
      SumSnoc([], first);
      assert [first] + Credits(parties, amounts) == [] + [first];
    } else {
      var n := |amounts| - 1;
      SumCredits(first, parties[..n], amounts[..n]);
      SumSnoc([first] + Credits(parties[..n], amounts[..n]), Entry(parties[n], Some(amounts[n])));
      CreditsSnoc(first, parties, amounts);
    }
  }

  lemma {:induction false} CreditsSnoc(first: Entry, parties: seq<Party>, amounts: seq<int>)
    requires |parties| == |amounts| > 0
    ensures var n := |amounts| - 1;
            [first] + Credits(parties, amounts)
            == [first] + Credits(parties[..n], amounts[..n]) + [Entry(parties[n], Some(amounts[n]))]
  {
  }

  lemma {:induction false} TotalSnoc(amounts: seq<int>, amount: int)
    ensures Total(amounts + [amount]) == Total(amounts) + amount
  {
    assert (amounts + [amount])[..|amounts|] == amounts;
  }

  /** A debit of the balance, credits, and the rest of the balance: zero, unless the debit is not a number. */
  lemma {:induction false} SumToZero(debtor: Party, balance: int, parties: seq<Party>, amounts: seq<int>, rest: Party)
    requires |parties| == |amounts|
    ensures Sum([Debit(debtor, balance)] + Credits(parties + [rest], amounts + [balance - Total(amounts)]))
         == if balance >= 0 then Some(0) else None
  {
    TotalSnoc(amounts, balance - Total(amounts));
    SumCredits(Debit(debtor, balance), parties + [rest], amounts + [balance - Total(amounts)]);
  }

  // ---------------------------------------------------------------- plans

  /** The surroundings of a builder: the clock, and the text of a tokenUnits value. */
  datatype Env = Env(now: int, unitsText: seq<TokenUnit> -> string)

  /** attach_token_units_meta: nothing without units, and nothing when the text is too long for a meta. */
  function UnitsMeta(env: Env, units: seq<TokenUnit>): seq<Meta> {
    if units == [] || |env.unitsText(units)| > MAX_META_VALUE then []
    else [Meta(Some("tokenUnits"), Some(env.unitsText(units)))]
  }

  /** One atom to append; Failure is a refusal before it is added. */
  type Planned = Result<AtomData>

  function PlanAtom(env: Env, position: Text, address: Text, isotope: Isotope, token: Text, value: string,
                    batchId: Text, metaType: Text, metaId: Text, meta: seq<Meta>): Planned {
    if Atom.Creatable(position, address, token) then
      Success(AtomData(position, address, isotope, token, Some(value), batchId, metaType, metaId, meta, None, -1,
                       None, env.now, 0))
    else Failure(InvalidArgs)
  }

  /** An atom of a wallet. */
  function PlanWallet(env: Env, w: WalletData, isotope: Isotope, value: string, metaType: Text, metaId: Text,
                      meta: seq<Meta>): Planned {
    PlanAtom(env, w.position, w.address, isotope, w.token, value, w.batchId, metaType, metaId, meta)
  }

  /** A wallet's atom with metaType walletBundle, its bundle and its units. */
  function PlanBundle(env: Env, w: WalletData, isotope: Isotope, value: string): Planned {
    PlanWallet(env, w, isotope, value, Some("walletBundle"), w.bundleHash, UnitsMeta(env, w.units))
  }

  /** Appends the planned atoms until one is refused or the molecule is full; what was added stays. */
  function Placed(atoms: seq<AtomData>, plan: seq<Planned>): (Error, seq<AtomData>) {
    if plan == [] then (Ok, atoms)
    else
      var front, last := Placed(atoms, plan[..|plan| - 1]), plan[|plan| - 1];
      if front.0 != Ok then front
      else if last.Failure? then (last.error, front.1)
      else if |front.1| >= MAX_ATOMS then (InvalidArgs, front.1)
      else (Ok, front.1 + [last.value.(index := |front.1|)])
  }

  lemma {:induction false} PlacedSnoc(atoms: seq<AtomData>, plan: seq<Planned>, next: Planned)
    ensures Placed(atoms, plan + [next])
         == (var front := Placed(atoms, plan);
             if front.0 != Ok then front
             else if next.Failure? then (next.error, front.1)
             else if |front.1| >= MAX_ATOMS then (InvalidArgs, front.1)
             else (Ok, front.1 + [next.value.(index := |front.1|)]))
  {
    assert (plan + [next])[..|plan|] == plan;
  }

  /** A refused atom ends the plan. */
  lemma {:induction false} PlacedStops(atoms: seq<AtomData>, plan: seq<Planned>, rest: seq<Planned>)
    requires Placed(atoms, plan).0 != Ok
    ensures Placed(atoms, plan + rest) == Placed(atoms, plan)
  {
    if rest == [] {
      assert plan + rest == plan;
    } else {
      PlacedStops(atoms, plan, rest[..|rest| - 1]);
      assert (plan + rest)[..|plan + rest| - 1] == plan + rest[..|rest| - 1];
    }
  }

  /** The plan up to its k-th atom was placed: now the k-th, which goes on or ends the plan. */
  lemma {:induction false} PlacedStep(atoms: seq<AtomData>, plan: seq<Planned>, k: nat)
    requires k < |plan| && Placed(atoms, plan[..k]).0 == Ok
    ensures Placed(atoms, plan[..k + 1])
         == (var front := Placed(atoms, plan[..k]).1;
             if plan[k].Failure? then (plan[k].error, front)
             else if |front| >= MAX_ATOMS then (InvalidArgs, front)
             else (Ok, front + [plan[k].value.(index := |front|)]))
    ensures Placed(atoms, plan[..k + 1]).0 != Ok ==> Placed(atoms, plan) == Placed(atoms, plan[..k + 1])
    ensures k + 1 == |plan| ==> Placed(atoms, plan) == Placed(atoms, plan[..k + 1])
  {
    assert plan[..k + 1] == plan[..k] + [plan[k]];
    PlacedSnoc(atoms, plan[..k], plan[k]);
    assert plan == plan[..k + 1] + plan[k + 1..];
    if Placed(atoms, plan[..k + 1]).0 != Ok {
      PlacedStops(atoms, plan[..k + 1], plan[k + 1..]);
    }
    if k + 1 == |plan| {
      assert plan[..k + 1] == plan;
    }
  }

  /** A plan succeeds exactly when every atom can be made and there is room, and adds one atom each. */
  lemma {:induction false} PlacedWhole(atoms: seq<AtomData>, plan: seq<Planned>)
    requires Refusals(plan)
    ensures Placed(atoms, plan).0 == Ok <==>
              (forall i :: 0 <= i < |plan| ==> plan[i].Success?) && (plan == [] || |atoms| + |plan| <= MAX_ATOMS)
    ensures atoms <= Placed(atoms, plan).1 && |Placed(atoms, plan).1| <= |atoms| + |plan|
    ensures Placed(atoms, plan).0 == Ok ==>
              |Placed(atoms, plan).1| == |atoms| + |plan| &&
              forall i :: 0 <= i < |plan| ==>
                plan[i].Success? && Placed(atoms, plan).1[|atoms| + i] == plan[i].value.(index := |atoms| + i)
  {
    if plan != [] {
      var front := plan[..|plan| - 1];
      PlacedWhole(atoms, front);
      assert (forall i :: 0 <= i < |plan| ==> plan[i].Success?)
        <==> (forall i :: 0 <= i < |front| ==> front[i].Success?) && plan[|plan| - 1].Success?;
      assert forall i :: 0 <= i < |front| ==> plan[i] == front[i];
    }
  }

  ghost predicate Refusals(plan: seq<Planned>) {
    forall i :: 0 <= i < |plan| && plan[i].Failure? ==> plan[i].error != Ok
  }

  /** The entries a plan gives its atoms, in order. */
  ghost predicate Books(plan: seq<Planned>, entries: seq<Entry>) {
    |plan| == |entries| && forall i :: 0 <= i < |plan| && plan[i].Success? ==> EntryOf(plan[i].value) == entries[i]
  }

  predicate Consecutive(atoms: seq<AtomData>, from: nat) {
    forall i :: from <= i < |atoms| ==> atoms[i].index == i
  }

  /** New atoms at the end, numbered on from the old ones, with these entries. */
  ghost predicate Appended(atoms: seq<AtomData>, placed: seq<AtomData>, entries: seq<Entry>) {
    atoms <= placed && Consecutive(placed, |atoms|) && Ledger(placed[|atoms|..]) == entries
  }

  /** A whole plan appends its entries. */
  lemma {:induction false} PlacedBooks(atoms: seq<AtomData>, plan: seq<Planned>, entries: seq<Entry>,
                                       placed: seq<AtomData>)
    requires Refusals(plan) && Books(plan, entries) && Placed(atoms, plan) == (Ok, placed)
    ensures Appended(atoms, placed, entries)
  {
    PlacedWhole(atoms, plan);
    forall j | |atoms| <= j < |placed| ensures EntryOf(placed[j]) == entries[j - |atoms|] && placed[j].index == j {
      var i := j - |atoms|;
      assert placed[|atoms| + i] == plan[i].value.(index := |atoms| + i);
    }
    assert Ledger(placed[|atoms|..]) == entries;
  }

  // ---------------------------------------------------------------- init_value

  /** The transfers' debit of the whole balance, with the sent units. */
  function SourcePlan(env: Env, source: WalletData): Planned {
    PlanWallet(env, source, V, "-" + IntText(Truncate(source.balance)), None, None, UnitsMeta(env, source.units))
  }

  function ValuePlan(env: Env, source: WalletData, recipient: WalletData, remainder: Option<WalletData>, amount: int)
    : seq<Planned>
  {
    var balance := Truncate(source.balance);
    var debit, credit := SourcePlan(env, source), PlanBundle(env, recipient, V, IntText(amount));
    if remainder.None? then [debit, credit]
    else [debit, credit, PlanBundle(env, remainder.value, V, IntText(balance - amount))]
  }

  /** knishio_molecule_init_value. */
  function InitValue(env: Env, atoms: seq<AtomData>, source: Option<WalletData>, recipient: Option<WalletData>,
                     remainder: Option<WalletData>, amount: int): (Error, seq<AtomData>) {
    if recipient.None? then (InvalidArgs, atoms)
    else if source.None? then (InvalidState, atoms)
    else if source.value.balance < amount as real then (BalanceInsufficient, atoms)
    else Placed(atoms, ValuePlan(env, source.value, recipient.value, remainder, amount))
  }

  /** The entries of a transfer. */
  function TransferEntries(source: WalletData, recipient: WalletData, remainder: Option<WalletData>, amount: int)
    : seq<Entry>
  {
    var balance := Truncate(source.balance);
    [Debit(Payer(source), balance)] +
    if remainder.None? then Credits([Holder(recipient)], [amount])
    else Credits([Holder(recipient), Holder(remainder.value)], [amount, balance - amount])
  }

  /** A transfer debits the source's whole balance and credits the recipient, then the remainder. */
  lemma {:induction false} InitValueBooks(env: Env, atoms: seq<AtomData>, source: WalletData, recipient: WalletData,
                                          remainder: Option<WalletData>, amount: int, placed: seq<AtomData>)
    requires InitValue(env, atoms, Some(source), Some(recipient), remainder, amount) == (Ok, placed)
    ensures Appended(atoms, placed, TransferEntries(source, recipient, remainder, amount))
    ensures Truncate(source.balance) >= amount && (Truncate(source.balance) >= 0 <==> source.balance > -1.0)
  {
    hide ValuePlan, TransferEntries, Books, Placed, Appended, Truncate;
    TruncateAtLeast(source.balance, amount);
    ValuePlanBooks(env, source, recipient, remainder, amount);
    PlacedBooks(atoms, ValuePlan(env, source, recipient, remainder, amount),
                TransferEntries(source, recipient, remainder, amount), placed);
  }

  lemma {:induction false} ValuePlanBooks(env: Env, source: WalletData, recipient: WalletData,
                                          remainder: Option<WalletData>, amount: int)
    ensures Refusals(ValuePlan(env, source, recipient, remainder, amount))
    ensures Books(ValuePlan(env, source, recipient, remainder, amount),
                  TransferEntries(source, recipient, remainder, amount))
  {
    hide PlanAtom, EntryOf, IntText, Truncate, Debit, Books, UnitsMeta, ValueOfText;
    var plan, balance := ValuePlan(env, source, recipient, remainder, amount), Truncate(source.balance);
    PlanAtomSays(env, source.position, source.address, V, source.token, "-" + IntText(balance), source.batchId, None, None,
                 UnitsMeta(env, source.units));
    DebitIs(plan[0], Payer(source), balance);
    BundleEntry(env, recipient, V, amount);
    if remainder.Some? {
      BundleEntry(env, remainder.value, V, balance - amount);
    }
    ThreeBooked(plan, TransferEntries(source, recipient, remainder, amount));
  }

  lemma {:induction false} PlanAtomSays(env: Env, position: Text, address: Text, isotope: Isotope, token: Text,
                                        value: string, batchId: Text, metaType: Text, metaId: Text, meta: seq<Meta>)
    ensures var p := PlanAtom(env, position, address, isotope, token, value, batchId, metaType, metaId, meta);
            (p.Success? ==> p.value.value == Some(value) && PartyOf(p.value) == Party(address, token, metaId)) &&
            (p.Failure? ==> p.error != Ok)
  {
  }

  lemma {:induction false} DebitIs(p: Planned, party: Party, balance: int)
    requires p.Success? ==> PartyOf(p.value) == party && p.value.value == Some("-" + IntText(balance))
    ensures p.Success? ==> EntryOf(p.value) == Debit(party, balance)
  {
    ValueOfDebit(balance);
  }

  lemma {:induction false} CreditIs(p: Planned, party: Party, v: int)
    requires p.Success? ==> PartyOf(p.value) == party && p.value.value == Some(IntText(v))
    ensures p.Success? ==> EntryOf(p.value) == Entry(party, Some(v))
  {
    ValueOfInt(v);
  }

  lemma {:induction false} BundleEntry(env: Env, w: WalletData, isotope: Isotope, v: int)
    ensures var p := PlanBundle(env, w, isotope, IntText(v));
            (p.Success? ==> EntryOf(p.value) == Entry(Holder(w), Some(v))) && (p.Failure? ==> p.error != Ok)
  {
    hide IntText, ValueOfText, EntryOf, PlanAtom, UnitsMeta;
    PlanAtomSays(env, w.position, w.address, isotope, w.token, IntText(v), w.batchId, Some("walletBundle"), w.bundleHash,
                 UnitsMeta(env, w.units));
    CreditIs(PlanBundle(env, w, isotope, IntText(v)), Holder(w), v);
  }

  lemma {:induction false} ThreeBooked(plan: seq<Planned>, entries: seq<Entry>)
    requires 2 <= |plan| == |entries| <= 3
    requires plan[0].Success? ==> EntryOf(plan[0].value) == entries[0]
    requires plan[1].Success? ==> EntryOf(plan[1].value) == entries[1]
    requires |plan| == 3 && plan[2].Success? ==> EntryOf(plan[2].value) == entries[2]
    ensures Books(plan, entries)
  {
  }

  /**
   A successful transfer conserves value exactly when the truncated balance is not negative
   and, without a remainder wallet, when the whole of it is sent. The rest is never negative.
   */
  lemma {:induction false} InitValueConserves(env: Env, atoms: seq<AtomData>, source: WalletData, recipient: WalletData,
                                              remainder: Option<WalletData>, amount: int, placed: seq<AtomData>)
    requires InitValue(env, atoms, Some(source), Some(recipient), remainder, amount) == (Ok, placed)
    ensures atoms <= placed && Consecutive(placed, |atoms|)
    ensures Sum(Ledger(placed[|atoms|..])) == Some(0) <==>
              source.balance > -1.0 && (remainder.Some? || amount == Truncate(source.balance))
    ensures Truncate(source.balance) - amount >= 0
  {
    InitValueBooks(env, atoms, source, recipient, remainder, amount, placed);
    TransferSum(source, recipient, remainder, amount);
  }

  lemma {:induction false} TransferSum(source: WalletData, recipient: WalletData, remainder: Option<WalletData>, amount: int)
    ensures var balance := Truncate(source.balance);
            Sum(TransferEntries(source, recipient, remainder, amount))
            == if balance < 0 then None else if remainder.Some? then Some(0) else Some(amount - balance)
  {
    var balance := Truncate(source.balance);
    TotalSnoc([], amount);
    assert [] + [amount] == [amount];
    SumCredits(Debit(Payer(source), balance), [Holder(recipient)], [amount]);
    if remainder.Some? {
      SumToZero(Payer(source), balance, [Holder(recipient)], [amount], Holder(remainder.value));
      assert [amount] + [balance - amount] == [amount, balance - amount];
      assert [Holder(recipient)] + [Holder(remainder.value)] == [Holder(recipient), Holder(remainder.value)];
    }
  }

  /** A wallet of one token, at a place, with this balance. */
  function WalletOf(balance: real): WalletData {
    WalletData(Some("T"), Some(""), Some(""), Some(""), None, balance, [])
  }

  /** Without a remainder wallet, sending 3 of 10.0 is not refused, and 7 are gone. */
  lemma {:induction false} RestLost(env: Env)
    ensures var outcome := InitValue(env, [], Some(WalletOf(10.0)), Some(WalletOf(0.0)), None, 3);
            outcome.0 == Ok && Sum(Ledger(outcome.1)) == Some(-7)
  {
    NotRefused(env, WalletOf(10.0), WalletOf(0.0), None, 3);
    TransferSum(WalletOf(10.0), WalletOf(0.0), None, 3);
  }

  /** Sending -2 from a balance of -2.0 is not refused either, and its debit "--2" is no number. */
  lemma {:induction false} NegativeBalance(env: Env)
    ensures var outcome := InitValue(env, [], Some(WalletOf(-2.0)), Some(WalletOf(0.0)), Some(WalletOf(0.0)), -2);
            outcome.0 == Ok && Sum(Ledger(outcome.1)) == None && outcome.1[0].value == Some("--2")
  {
    NotRefused(env, WalletOf(-2.0), WalletOf(0.0), Some(WalletOf(0.0)), -2);
    TransferSum(WalletOf(-2.0), WalletOf(0.0), Some(WalletOf(0.0)), -2);
    assert Truncate(-2.0) == -2;
    assert IntText(-2) == "-2";
    assert "-" + IntText(-2) == "--2";
  }

  /** Into an empty molecule, a covered transfer between wallets that can have atoms is not refused. */
  lemma {:induction false} NotRefused(env: Env, source: WalletData, recipient: WalletData, remainder: Option<WalletData>,
                                      amount: int)
    requires Atom.Creatable(source.position, source.address, source.token)
    requires Atom.Creatable(recipient.position, recipient.address, recipient.token)
    requires remainder.Some? ==> Atom.Creatable(remainder.value.position, remainder.value.address, remainder.value.token)
    requires source.balance >= amount as real
    ensures var outcome := InitValue(env, [], Some(source), Some(recipient), remainder, amount);
            outcome.0 == Ok && Ledger(outcome.1) == TransferEntries(source, recipient, remainder, amount) &&
            |outcome.1| > 0 && outcome.1[0].value == Some("-" + IntText(Truncate(source.balance)))
  {
    hide IntText, Truncate, UnitsMeta, Books, EntryOf, TransferEntries;
    var plan := ValuePlan(env, source, recipient, remainder, amount);
    var placed := Placed([], plan).1;
    ValuePlanBooks(env, source, recipient, remainder, amount);
    PlacedWhole([], plan);
    InitValueBooks(env, [], source, recipient, remainder, amount, placed);
    assert placed[0..] == placed && placed[0 + 0] == plan[0].value.(index := 0);
  }

  // ---------------------------------------------------------------- init_values

  function RecipientPlan(env: Env, recipients: seq<Option<WalletData>>, amounts: seq<int>): (plan: seq<Planned>)
    requires |recipients| == |amounts|
    ensures |plan| == |recipients|
  {
    seq(|recipients|, i requires 0 <= i < |recipients| =>
      if recipients[i].None? then Failure(InvalidArgs) else PlanBundle(env, recipients[i].value, V, IntText(amounts[i])))
  }

  function ValuesPlan(env: Env, source: WalletData, recipients: seq<Option<WalletData>>, remainder: WalletData,
                      amounts: seq<int>): seq<Planned>
    requires |recipients| == |amounts|
  {
    [SourcePlan(env, source)] + RecipientPlan(env, recipients, amounts) +
    [PlanBundle(env, remainder, V, IntText(Truncate(source.balance) - Total(amounts)))]
  }

  /** knishio_molecule_init_values. */
  function InitValues(env: Env, atoms: seq<AtomData>, source: Option<WalletData>, recipients: seq<Option<WalletData>>,
                      remainder: Option<WalletData>, amounts: seq<int>): (Error, seq<AtomData>)
    requires |recipients| == |amounts|
  {
    if recipients == [] then (InvalidArgs, atoms)
    else if source.None? || remainder.None? then (InvalidState, atoms)
    else if source.value.balance < Total(amounts) as real then (BalanceInsufficient, atoms)
    else Placed(atoms, ValuesPlan(env, source.value, recipients, remainder.value, amounts))
  }

  /** The accounts of recipient wallets. */
  function HoldersOf(recipients: seq<Option<WalletData>>): (parties: seq<Party>)
    ensures |parties| == |recipients|
  {
    seq(|recipients|, i requires 0 <= i < |recipients| =>
      if recipients[i].Some? then Holder(recipients[i].value) else Party(None, None, None))
  }

  /** A multi-transfer debits the source's whole balance and credits each recipient its amount, then the remainder. */
  lemma {:induction false} InitValuesBooks(env: Env, atoms: seq<AtomData>, source: WalletData,
                                           recipients: seq<Option<WalletData>>, remainder: WalletData,
                                           amounts: seq<int>, placed: seq<AtomData>)
    requires |recipients| == |amounts|
    requires InitValues(env, atoms, Some(source), recipients, Some(remainder), amounts) == (Ok, placed)
    ensures var balance := Truncate(source.balance);
            Appended(atoms, placed,
                     [Debit(Payer(source), balance)] + Credits(HoldersOf(recipients) + [Holder(remainder)],
                                                      amounts + [balance - Total(amounts)]))
    ensures Truncate(source.balance) >= Total(amounts) && (Truncate(source.balance) >= 0 <==> source.balance > -1.0)
  {
    hide ValuesPlan, Credits, Debit, Books, Placed, Appended, HoldersOf, Truncate, Total;
    var plan := ValuesPlan(env, source, recipients, remainder, amounts);
    var balance := Truncate(source.balance);
    TruncateAtLeast(source.balance, Total(amounts));
    ValuesBooked(env, source, recipients, remainder, amounts);
    PlacedBooks(atoms, plan, [Debit(Payer(source), balance)] + Credits(HoldersOf(recipients) + [Holder(remainder)],
                                                             amounts + [balance - Total(amounts)]), placed);
  }

  lemma {:induction false} ValuesBooked(env: Env, source: WalletData, recipients: seq<Option<WalletData>>,
                                        remainder: WalletData, amounts: seq<int>)
    requires |recipients| == |amounts|
    ensures var plan, balance := ValuesPlan(env, source, recipients, remainder, amounts), Truncate(source.balance);
            Refusals(plan) &&
            Books(plan, [Debit(Payer(source), balance)] + Credits(HoldersOf(recipients) + [Holder(remainder)],
                                                         amounts + [balance - Total(amounts)]))
  {
    hide ValueOfText, IntText, EntryOf, PlanAtom, UnitsMeta, Debit, Truncate;
    var balance := Truncate(source.balance);
    var rest := balance - Total(amounts);
    var first, middle := [SourcePlan(env, source)], RecipientPlan(env, recipients, amounts);
    var last := [PlanBundle(env, remainder, V, IntText(rest))];
    PlanAtomSays(env, source.position, source.address, V, source.token, "-" + IntText(balance), source.batchId, None, None,
                 UnitsMeta(env, source.units));
    DebitIs(first[0], Payer(source), balance);
    BundleEntry(env, remainder, V, rest);
    RecipientsBooked(env, recipients, amounts);
    BooksAppend(first, middle, [Debit(Payer(source), balance)], Credits(HoldersOf(recipients), amounts));
    BooksAppend(first + middle, last, [Debit(Payer(source), balance)] + Credits(HoldersOf(recipients), amounts),
                [Entry(Holder(remainder), Some(rest))]);
    CreditsSnoc(Debit(Payer(source), balance), HoldersOf(recipients) + [Holder(remainder)], amounts + [rest]);
    assert (HoldersOf(recipients) + [Holder(remainder)])[..|amounts|] == HoldersOf(recipients);
    assert (amounts + [rest])[..|amounts|] == amounts;
  }

  lemma {:induction false} RecipientsBooked(env: Env, recipients: seq<Option<WalletData>>, amounts: seq<int>)
    requires |recipients| == |amounts|
    ensures Refusals(RecipientPlan(env, recipients, amounts))
    ensures Books(RecipientPlan(env, recipients, amounts), Credits(HoldersOf(recipients), amounts))
  {
    hide PlanBundle, IntText, EntryOf;
    forall i | 0 <= i < |recipients| && recipients[i].Some?
      ensures var p := RecipientPlan(env, recipients, amounts)[i];
              (p.Success? ==> EntryOf(p.value) == Entry(HoldersOf(recipients)[i], Some(amounts[i]))) &&
              (p.Failure? ==> p.error != Ok)
    {
      BundleEntry(env, recipients[i].value, V, amounts[i]);
    }
  }

  lemma {:induction false} BooksAppend(a: seq<Planned>, b: seq<Planned>, v: seq<Entry>, w: seq<Entry>)
    requires Refusals(a) && Refusals(b) && Books(a, v) && Books(b, w)
    ensures Refusals(a + b) && Books(a + b, v + w)
  {
  }

  /** A successful multi-transfer conserves value exactly when the truncated balance is not negative. */
  lemma {:induction false} InitValuesConserves(env: Env, atoms: seq<AtomData>, source: WalletData,
                                               recipients: seq<Option<WalletData>>, remainder: WalletData,
                                               amounts: seq<int>, placed: seq<AtomData>)
    requires |recipients| == |amounts|
    requires InitValues(env, atoms, Some(source), recipients, Some(remainder), amounts) == (Ok, placed)
    ensures atoms <= placed && Consecutive(placed, |atoms|)
    ensures Sum(Ledger(placed[|atoms|..])) == Some(0) <==> source.balance > -1.0
    ensures Truncate(source.balance) - Total(amounts) >= 0
  {
    hide InitValues, HoldersOf, Credits, Total, Truncate;
    InitValuesBooks(env, atoms, source, recipients, remainder, amounts, placed);
    SumToZero(Payer(source), Truncate(source.balance), HoldersOf(recipients), amounts, Holder(remainder));
  }

  // ---------------------------------------------------------------- buffer and burn

  /** A withdrawal's B atom carries its bundle and units, a deposit's V atom does not. */
  function BufferSource(env: Env, source: WalletData, deposit: bool): Planned {
    var debit := "-" + IntText(Truncate(source.balance));
    if deposit then PlanWallet(env, source, V, debit, None, None, []) else PlanBundle(env, source, B, debit)
  }

  function BufferPlan(env: Env, source: WalletData, middle: WalletData, remainder: WalletData, amount: int, deposit: bool)
    : seq<Planned>
  {
    var balance := Truncate(source.balance);
    var outer, inner := if deposit then V else B, if deposit then B else V;
    var remainderBundle := if deposit then source.bundleHash else remainder.bundleHash;
    [BufferSource(env, source, deposit),
     PlanAtom(env, middle.position, middle.address, inner, if deposit then middle.token else source.token,
              IntText(amount), middle.batchId, Some("walletBundle"),
              if deposit then source.bundleHash else middle.bundleHash, []),
     PlanWallet(env, remainder, outer, IntText(balance - amount), Some("walletBundle"), remainderBundle, [])]
  }

  /** init_buffer_common. */
  function InitBuffer(env: Env, atoms: seq<AtomData>, source: Option<WalletData>, middle: Option<WalletData>,
                      remainder: Option<WalletData>, amount: int, deposit: bool): (Error, seq<AtomData>) {
    if middle.None? then (InvalidArgs, atoms)
    else if source.None? || remainder.None? then (InvalidState, atoms)
    else if amount < 0 then (InvalidArgs, atoms)
    else if source.value.balance < amount as real then (BalanceInsufficient, atoms)
    else Placed(atoms, BufferPlan(env, source.value, middle.value, remainder.value, amount, deposit))
  }

  function BurnPlan(env: Env, source: WalletData, remainder: WalletData, amount: int): seq<Planned> {
    var balance := Truncate(source.balance);
    [PlanAtom(env, source.position, source.address, V, source.token, "-" + IntText(balance), None, None, None,
              UnitsMeta(env, source.units)),
     PlanAtom(env, Some(""), Some(""), V, source.token, IntText(amount), None, Some("walletBundle"),
              Some(ZERO_BUNDLE), []),
     PlanAtom(env, remainder.position, remainder.address, V, remainder.token, IntText(balance - amount), None,
              Some("walletBundle"), remainder.bundleHash, UnitsMeta(env, remainder.units))]
  }

  /** knishio_molecule_init_burn. */
  function InitBurn(env: Env, atoms: seq<AtomData>, source: Option<WalletData>, remainder: Option<WalletData>, amount: int)
    : (Error, seq<AtomData>)
  {
    if source.None? || remainder.None? then (InvalidState, atoms)
    else if source.value.balance < amount as real then (BalanceInsufficient, atoms)
    else Placed(atoms, BurnPlan(env, source.value, remainder.value, amount))
  }

  /** Three entries: a debit, a credit and the rest. */
  function Exchange(debtor: Party, balance: int, credited: Party, amount: int, rest: Party): (entries: seq<Entry>)
    ensures |entries| == 3
  {
    [Debit(debtor, balance)] + Credits([credited, rest], [amount, balance - amount])
  }

  lemma {:induction false} ExchangeSum(debtor: Party, balance: int, credited: Party, amount: int, rest: Party)
    ensures Sum(Exchange(debtor, balance, credited, amount, rest)) == if balance >= 0 then Some(0) else None
  {
    TotalSnoc([], amount);
    assert [] + [amount] == [amount] && [amount] + [balance - amount] == [amount, balance - amount];
    assert [credited] + [rest] == [credited, rest];
    SumToZero(debtor, balance, [credited], [amount], rest);
  }

  /** Three atoms of these accounts with these values. */
  lemma {:induction false} ExchangePlaced(atoms: seq<AtomData>, plan: seq<Planned>, debtor: Party, balance: int,
                                          credited: Party, amount: int, rest: Party, placed: seq<AtomData>)
    requires |plan| == 3 && Refusals(plan) && Placed(atoms, plan) == (Ok, placed)
    requires plan[0].Success? ==> PartyOf(plan[0].value) == debtor && plan[0].value.value == Some("-" + IntText(balance))
    requires plan[1].Success? ==> PartyOf(plan[1].value) == credited && plan[1].value.value == Some(IntText(amount))
    requires plan[2].Success? ==> PartyOf(plan[2].value) == rest && plan[2].value.value == Some(IntText(balance - amount))
    ensures Appended(atoms, placed, Exchange(debtor, balance, credited, amount, rest))
  {
    hide ValueOfText, IntText, EntryOf, Debit;
    DebitIs(plan[0], debtor, balance);
    CreditIs(plan[1], credited, amount);
    CreditIs(plan[2], rest, balance - amount);
    ThreeBooked(plan, Exchange(debtor, balance, credited, amount, rest));
    PlacedBooks(atoms, plan, Exchange(debtor, balance, credited, amount, rest), placed);
  }

  /** The accounts of a deposit or withdrawal: debited, credited, and for the rest. */
  function BufferParties(source: WalletData, middle: WalletData, remainder: WalletData, deposit: bool)
    : (Party, Party, Party)
  {
    if deposit then
      (Payer(source), Holder(middle).(bundle := source.bundleHash), Holder(remainder).(bundle := source.bundleHash))
    else (Holder(source), Holder(middle).(token := source.token), Holder(remainder))
  }

  /**
   A deposit keeps the balance under the source's bundle, buffered and not; a withdrawal debits
   that bundle and credits the recipient's, in the source's token, and the remainder's. Its
   amount is not negative, so the balance is not, and value is conserved always.
   */
  lemma {:induction false} InitBufferConserves(env: Env, atoms: seq<AtomData>, source: WalletData, middle: WalletData,
                                               remainder: WalletData, amount: int, deposit: bool, placed: seq<AtomData>)
    requires InitBuffer(env, atoms, Some(source), Some(middle), Some(remainder), amount, deposit) == (Ok, placed)
    ensures var (debtor, credited, rest) := BufferParties(source, middle, remainder, deposit);
            Appended(atoms, placed, Exchange(debtor, Truncate(source.balance), credited, amount, rest))
    ensures Sum(Ledger(placed[|atoms|..])) == Some(0)
    ensures Truncate(source.balance) - amount >= 0
  {
    var plan, balance := BufferPlan(env, source, middle, remainder, amount, deposit), Truncate(source.balance);
    var (debtor, credited, rest) := BufferParties(source, middle, remainder, deposit);
    TruncateAtLeast(source.balance, amount);
    hide IntText, Truncate, UnitsMeta, Appended, Exchange;
    ExchangePlaced(atoms, plan, debtor, balance, credited, amount, rest, placed);
    ExchangeSum(debtor, balance, credited, amount, rest);
    AppendedSum(atoms, placed, Exchange(debtor, balance, credited, amount, rest));
  }

  lemma {:induction false} AppendedSum(atoms: seq<AtomData>, placed: seq<AtomData>, entries: seq<Entry>)
    requires Appended(atoms, placed, entries)
    ensures atoms <= placed && Sum(Ledger(placed[|atoms|..])) == Sum(entries)
  {
  }

  /** Deposit and withdrawal are one shape with the isotopes exchanged; every B atom names a bundle. */
  lemma {:induction false} BufferIsotopes(env: Env, atoms: seq<AtomData>, source: WalletData, middle: WalletData,
                                          remainder: WalletData, amount: int, deposit: bool, placed: seq<AtomData>)
    requires InitBuffer(env, atoms, Some(source), Some(middle), Some(remainder), amount, deposit) == (Ok, placed)
    ensures |placed| == |atoms| + 3
    ensures placed[|atoms|].isotope == placed[|atoms| + 2].isotope == if deposit then V else B
    ensures placed[|atoms| + 1].isotope == if deposit then B else V
    ensures forall i :: |atoms| <= i < |placed| && placed[i].isotope == B ==> placed[i].metaType == Some("walletBundle")
  {
    ThreeInPlace(atoms, BufferPlan(env, source, middle, remainder, amount, deposit), placed);
  }

  lemma {:induction false} ThreeInPlace(atoms: seq<AtomData>, plan: seq<Planned>, placed: seq<AtomData>)
    requires |plan| == 3 && Refusals(plan) && Placed(atoms, plan) == (Ok, placed)
    ensures plan[0].Success? && plan[1].Success? && plan[2].Success?
    ensures var n := |atoms|;
            placed == atoms + [plan[0].value.(index := n), plan[1].value.(index := n + 1), plan[2].value.(index := n + 2)]
  {
    PlacedWhole(atoms, plan);
    assert plan[0].Success? && plan[1].Success? && plan[2].Success?;
    var n := |atoms|;
    assert placed[n + 0] == plan[0].value.(index := n + 0);
    assert placed[n + 1] == plan[1].value.(index := n + 1);
    assert placed[n + 2] == plan[2].value.(index := n + 2);
  }

  /** A burn credits the all-zeros bundle, and conserves value exactly when the truncated balance is not negative. */
  lemma {:induction false} InitBurnConserves(env: Env, atoms: seq<AtomData>, source: WalletData, remainder: WalletData,
                                             amount: int, placed: seq<AtomData>)
    requires InitBurn(env, atoms, Some(source), Some(remainder), amount) == (Ok, placed)
    ensures Appended(atoms, placed,
                     Exchange(Payer(source), Truncate(source.balance), Party(Some(""), source.token, Some(ZERO_BUNDLE)),
                              amount, Holder(remainder)))
    ensures atoms <= placed && (Sum(Ledger(placed[|atoms|..])) == Some(0) <==> source.balance > -1.0)
    ensures Truncate(source.balance) - amount >= 0
  {
    var plan, balance := BurnPlan(env, source, remainder, amount), Truncate(source.balance);
    var burned := Party(Some(""), source.token, Some(ZERO_BUNDLE));
    TruncateAtLeast(source.balance, amount);
    hide IntText, Truncate, UnitsMeta, Appended, Exchange;
    ExchangePlaced(atoms, plan, Payer(source), balance, burned, amount, Holder(remainder), placed);
    ExchangeSum(Payer(source), balance, burned, amount, Holder(remainder));
    AppendedSum(atoms, placed, Exchange(Payer(source), balance, burned, amount, Holder(remainder)));
  }
}
