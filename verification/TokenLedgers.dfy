/**
 Conservation token by token. No builder of src/molecule.c compares the tokens of its
 wallets, so a transfer whose values sum to zero may still turn one token into another;
 the results here say exactly when it does not.
 */
module TokenLedgers {
  import opened Basics
  import opened Atoms
  import opened ValuePlans
  import opened Fusion
  import opened Wallets

  /** The entries of one token. */
  function OfToken(entries: seq<Entry>, token: Text): seq<Entry> {
    if entries == [] then []
    else
      var front, last := OfToken(entries[..|entries| - 1], token), entries[|entries| - 1];
      if last.party.token == token then front + [last] else front
  }

  /** Every token's values sum to zero. */
  ghost predicate TokensBalance(entries: seq<Entry>) {
    forall token: Text {:trigger OfToken(entries, token)} :: Sum(OfToken(entries, token)) == Some(0)
  }

  lemma {:induction false} OfTokenSnoc(entries: seq<Entry>, e: Entry, token: Text)
    ensures OfToken(entries + [e], token) == if e.party.token == token then OfToken(entries, token) + [e] else OfToken(entries, token)
  {
    assert (entries + [e])[..|entries|] == entries;
  }

  predicate Numbers(entries: seq<Entry>) {
    forall i :: 0 <= i < |entries| ==> entries[i].amount.Some?
  }

  /** The credits of one token. */
  function Credited(entries: seq<Entry>, token: Text): int {
    if entries == [] then 0
    else
      var front, last := Credited(entries[..|entries| - 1], token), entries[|entries| - 1];
      if last.party.token == token && last.amount.Some? then front + last.amount.value else front
  }

  lemma {:induction false} CreditedSnoc(entries: seq<Entry>, e: Entry, token: Text)
    ensures Credited(entries + [e], token)
         == Credited(entries, token) + if e.party.token == token && e.amount.Some? then e.amount.value else 0
  {
    assert (entries + [e])[..|entries|] == entries;
  }

  /** The token's sum, when all values are numbers. */
  lemma {:induction false} SumOfToken(entries: seq<Entry>, token: Text)
    requires Numbers(entries)
    ensures Sum(OfToken(entries, token)) == Some(Credited(entries, token))
  {
    if entries != [] {
      var front, last := entries[..|entries| - 1], entries[|entries| - 1];
      SumOfToken(front, token);
      SumSnoc(OfToken(front, token), last);
    }
  }

  predicate NotNegative(entries: seq<Entry>) {
    forall i :: 0 <= i < |entries| ==> entries[i].amount.Some? && entries[i].amount.value >= 0
  }

  /** Every entry that moves something is in this token. */
  predicate AllIn(entries: seq<Entry>, token: Text) {
    forall i :: 0 <= i < |entries| && entries[i].amount != Some(0) ==> entries[i].party.token == token
  }

  /** Entries all in one token: that token has their sum, and every other one nothing. */
  lemma {:induction false} OneTokenSums(entries: seq<Entry>, token: Text, other: Text)
    requires Numbers(entries) && AllIn(entries, token)
    ensures Sum(entries) == Some(Credited(entries, token)) && (other != token ==> Credited(entries, other) == 0)
  {
    if entries != [] {
      OneTokenSums(entries[..|entries| - 1], token, other);
    }
  }

  /** What credits of a token sum to: never less than any one of them. */
  lemma {:induction false} CreditedAtLeast(entries: seq<Entry>, i: nat)
    requires NotNegative(entries) && i < |entries|
    ensures Credited(entries, entries[i].party.token) >= entries[i].amount.value
  {
    var n := |entries| - 1;
    if i < n {
      CreditedAtLeast(entries[..n], i);
    } else {
      CreditedNotNegative(entries[..n], entries[n].party.token);
    }
  }

  lemma {:induction false} CreditedNotNegative(entries: seq<Entry>, token: Text)
    requires NotNegative(entries)
    ensures Credited(entries, token) >= 0
  {
    if entries != [] {
      CreditedNotNegative(entries[..|entries| - 1], token);
    }
  }

  lemma {:induction false} DebitFirst(debit: Entry, credits: seq<Entry>, token: Text)
    requires debit.amount.Some?
    ensures Credited([debit] + credits, token)
         == Credited(credits, token) + if debit.party.token == token then debit.amount.value else 0
  {
    if credits == [] {
      CreditedSnoc([], debit, token);
      assert [debit] + credits == [] + [debit];
    } else {
      var n := |credits| - 1;
      DebitFirst(debit, credits[..n], token);
      CreditedSnoc([debit] + credits[..n], credits[n], token);
      assert [debit] + credits == [debit] + credits[..n] + [credits[n]];
    }
  }

  /**
   A debit whose credits sum to it balances every token when each credit that is not zero is in
   the debtor's token; and, when no credit is negative, only then.
   */
  lemma {:induction false} TokensBalanced(debit: Entry, credits: seq<Entry>)
    requires debit.amount.Some? && Numbers(credits) && Sum([debit] + credits) == Some(0)
    ensures AllIn(credits, debit.party.token) ==> TokensBalance([debit] + credits)
    ensures NotNegative(credits) && TokensBalance([debit] + credits) ==> AllIn(credits, debit.party.token)
  {
    var entries, token := [debit] + credits, debit.party.token;
    assert Numbers(entries);
    if AllIn(credits, token) {
      forall t: Text ensures Sum(OfToken(entries, t)) == Some(0) {
        SumOfToken(entries, t);
        OneTokenSums(entries, token, t);
      }
    } else if NotNegative(credits) {
      var i :| 0 <= i < |credits| && credits[i].amount != Some(0) && credits[i].party.token != token;
      var t := credits[i].party.token;
      CreditedAtLeast(credits, i);
      DebitFirst(debit, credits, t);
      SumOfToken(entries, t);
      assert Sum(OfToken(entries, t)) != Some(0);
    }
  }

  /** A debit that is not a number balances nothing. */
  lemma {:induction false} NoNumber(debit: Entry, credits: seq<Entry>)
    requires debit.amount.None?
    ensures !TokensBalance([debit] + credits)
  {
    StaysNoNumber(debit, credits);
    assert Sum(OfToken([debit] + credits, debit.party.token)) != Some(0);
  }

  lemma {:induction false} StaysNoNumber(debit: Entry, credits: seq<Entry>)
    requires debit.amount.None?
    ensures Sum(OfToken([debit] + credits, debit.party.token)) == None
  {
    var token := debit.party.token;
    if credits == [] {
      OfTokenSnoc([], debit, token);
      SumSnoc([], debit);
      assert [debit] + credits == [] + [debit] && OfToken([], token) == [];
    } else {
      var n := |credits| - 1;
      StaysNoNumber(debit, credits[..n]);
      OfTokenSnoc([debit] + credits[..n], credits[n], token);
      SumSnoc(OfToken([debit] + credits[..n], token), credits[n]);
      assert [debit] + credits == [debit] + credits[..n] + [credits[n]];
    }
  }

  // ---------------------------------------------------------------- the builders

  /** When three entries balance every token, of whatever sign the amount is. */
  predicate ExchangeBalances(debtor: Text, balance: int, credited: Text, amount: int, rest: Text) {
    balance >= 0 &&
    (((amount == 0 || credited == debtor) && (amount == balance || rest == debtor)) ||
     (balance == 0 && credited == rest))
  }

  /** What three entries give one token. */
  function ExchangeIn(debtor: Text, balance: int, credited: Text, amount: int, rest: Text, token: Text): int {
    (if debtor == token then -balance else 0) + (if credited == token then amount else 0) +
    if rest == token then balance - amount else 0
  }

  lemma {:induction false} CreditedThree(d: Entry, e: Entry, f: Entry, token: Text)
    requires d.amount.Some? && e.amount.Some? && f.amount.Some?
    ensures Credited([d] + [e, f], token)
         == (if d.party.token == token then d.amount.value else 0) + (if e.party.token == token then e.amount.value else 0) +
            if f.party.token == token then f.amount.value else 0
  {
    hide Credited;
    DebitFirst(d, [e, f], token);
    CreditedSnoc([e], f, token);
    CreditedSnoc([], e, token);
    assert [e] + [f] == [e, f] && [] + [e] == [e];
    CreditedNone(token);
  }

  lemma {:induction false} CreditedNone(token: Text)
    ensures Credited([], token) == 0
  {
  }

  lemma {:induction false} ExchangeSumIn(debtor: Party, balance: int, credited: Party, amount: int, rest: Party, token: Text)
    requires balance >= 0
    ensures Sum(OfToken(Exchange(debtor, balance, credited, amount, rest), token))
         == Some(ExchangeIn(debtor.token, balance, credited.token, amount, rest.token, token))
  {
    hide Sum, OfToken, Credited;
    var d, e, f := Debit(debtor, balance), Entry(credited, Some(amount)), Entry(rest, Some(balance - amount));
    assert Exchange(debtor, balance, credited, amount, rest) == [d] + [e, f];
    SumOfToken([d] + [e, f], token);
    CreditedThree(d, e, f, token);
  }

  /** No token is left with anything, looked at from the three tokens there are. */
  lemma {:induction false} ExchangeIsZero(debtor: Text, balance: int, credited: Text, amount: int, rest: Text)
    requires balance >= 0
    ensures ExchangeBalances(debtor, balance, credited, amount, rest) <==>
              ExchangeIn(debtor, balance, credited, amount, rest, debtor) == 0 &&
              ExchangeIn(debtor, balance, credited, amount, rest, credited) == 0 &&
              ExchangeIn(debtor, balance, credited, amount, rest, rest) == 0
  {
  }

  lemma {:induction false} ExchangeTokens(debtor: Party, balance: int, credited: Party, amount: int, rest: Party)
    ensures TokensBalance(Exchange(debtor, balance, credited, amount, rest)) <==>
              ExchangeBalances(debtor.token, balance, credited.token, amount, rest.token)
  {
    var entries := Exchange(debtor, balance, credited, amount, rest);
    hide Sum, OfToken, Exchange;
    if balance < 0 {
      ExchangeNoNumber(debtor, balance, credited, amount, rest);
    } else {
      forall t: Text
        ensures Sum(OfToken(entries, t))
             == Some(ExchangeIn(debtor.token, balance, credited.token, amount, rest.token, t))
      {
        ExchangeSumIn(debtor, balance, credited, amount, rest, t);
      }
      ExchangeIsZero(debtor.token, balance, credited.token, amount, rest.token);
      assert Sum(OfToken(entries, debtor.token)).Some? && Sum(OfToken(entries, credited.token)).Some? &&
             Sum(OfToken(entries, rest.token)).Some?;
    }
  }

  lemma {:induction false} ExchangeNoNumber(debtor: Party, balance: int, credited: Party, amount: int, rest: Party)
    requires balance < 0
    ensures !TokensBalance(Exchange(debtor, balance, credited, amount, rest))
  {
    NoNumber(Debit(debtor, balance), Credits([credited, rest], [amount, balance - amount]));
  }

  /** A debit and one credit. */
  lemma {:induction false} PairTokens(debtor: Party, balance: int, credited: Party, amount: int)
    ensures TokensBalance([Debit(debtor, balance)] + Credits([credited], [amount])) <==>
              balance >= 0 && amount == balance && (balance == 0 || credited.token == debtor.token)
  {
    var debit, credits := Debit(debtor, balance), Credits([credited], [amount]);
    if balance < 0 {
      NoNumber(debit, credits);
    } else {
      var entries := [debit] + credits;
      forall t: Text
        ensures Sum(OfToken(entries, t))
             == Some((if debtor.token == t then -balance else 0) + if credited.token == t then amount else 0)
      {
        SumOfToken(entries, t);
        DebitFirst(debit, credits, t);
        CreditedSnoc([], credits[0], t);
        assert credits == [] + [credits[0]];
      }
      assert Sum(OfToken(entries, debtor.token)).Some? && Sum(OfToken(entries, credited.token)).Some?;
    }
  }

  lemma {:induction false} AppendedTokens(atoms: seq<AtomData>, placed: seq<AtomData>, entries: seq<Entry>)
    requires Appended(atoms, placed, entries)
    ensures atoms <= placed && (TokensBalance(Ledger(placed[|atoms|..])) <==> TokensBalance(entries))
  {
  }

  /**
   A successful transfer balances every token exactly when its value is conserved within the
   source's token, or nothing but a sum and its negative moves in another.
   */
  lemma {:induction false} TransferTokens(env: Env, atoms: seq<AtomData>, source: WalletData, recipient: WalletData,
                                          remainder: Option<WalletData>, amount: int, placed: seq<AtomData>)
    requires InitValue(env, atoms, Some(source), Some(recipient), remainder, amount) == (Ok, placed)
    ensures var balance := Truncate(source.balance);
            atoms <= placed &&
            (TokensBalance(Ledger(placed[|atoms|..])) <==>
               if remainder.Some? then
                 ExchangeBalances(source.token, balance, recipient.token, amount, remainder.value.token)
               else balance >= 0 && amount == balance && (balance == 0 || recipient.token == source.token))
  {
    hide InitValue, Appended, TokensBalance, Truncate;
    InitValueBooks(env, atoms, source, recipient, remainder, amount, placed);
    AppendedTokens(atoms, placed, TransferEntries(source, recipient, remainder, amount));
    if remainder.Some? {
      ExchangeTokens(Payer(source), Truncate(source.balance), Holder(recipient), amount, Holder(remainder.value));
    } else {
      PairTokens(Payer(source), Truncate(source.balance), Holder(recipient), amount);
    }
  }

  /** Sending 10 of 10.0 to a wallet of another token is not refused. All values sum to zero, those of each token do not. */
  lemma {:induction false} TokenTurned(env: Env, recipient: WalletData)
    requires recipient == WalletOf(0.0).(token := Some("U"))
    ensures var outcome := InitValue(env, [], Some(WalletOf(10.0)), Some(recipient), None, 10);
            outcome.0 == Ok && Sum(Ledger(outcome.1)) == Some(0) && !TokensBalance(Ledger(outcome.1))
  {
    hide InitValue, TokensBalance;
    NotRefused(env, WalletOf(10.0), recipient, None, 10);
    TransferSum(WalletOf(10.0), recipient, None, 10);
    PairTokens(Payer(WalletOf(10.0)), 10, Holder(recipient), 10);
  }

  /** In each token the credits are what is debited there: the balance, in the debtor's. */
  ghost predicate CreditsMatch(credits: seq<Entry>, debtor: Text, balance: int) {
    forall token: Text {:trigger Credited(credits, token)} ::
      Credited(credits, token) == if token == debtor then balance else 0
  }

  /** A debit and credits balance every token exactly when the credits of each are its debit. */
  lemma {:induction false} DebitMatched(debit: Entry, credits: seq<Entry>)
    requires debit.amount.Some? && Numbers(credits)
    ensures TokensBalance([debit] + credits) <==> CreditsMatch(credits, debit.party.token, -debit.amount.value)
  {
    var entries := [debit] + credits;
    forall token: Text
      ensures Sum(OfToken(entries, token))
           == Some(Credited(credits, token) + if debit.party.token == token then debit.amount.value else 0)
    {
      SumOfToken(entries, token);
      DebitFirst(debit, credits, token);
    }
    if TokensBalance(entries) {
      forall token: Text
        ensures Credited(credits, token) == if token == debit.party.token then -debit.amount.value else 0
      {
        assert Sum(OfToken(entries, token)) == Some(0);
      }
    }
  }

  /** What a multi-transfer credits in each token, the remainder included, is what it debits there. */
  ghost predicate TokensMatch(source: WalletData, recipients: seq<Option<WalletData>>, remainder: WalletData,
                              amounts: seq<int>)
    requires |recipients| == |amounts|
  {
    var balance := Truncate(source.balance);
    CreditsMatch(Credits(HoldersOf(recipients) + [Holder(remainder)], amounts + [balance - Total(amounts)]), source.token,
                 balance)
  }

  /** Nothing of a multi-transfer moves into another token. */
  predicate KeepsToken(source: WalletData, recipients: seq<Option<WalletData>>, remainder: WalletData, amounts: seq<int>)
    requires |recipients| == |amounts|
  {
    (forall i :: 0 <= i < |amounts| && amounts[i] != 0 ==> HoldersOf(recipients)[i].token == source.token) &&
    (Total(amounts) != Truncate(source.balance) ==> remainder.token == source.token)
  }

  /**
   A successful multi-transfer balances every token exactly when its debit is a number that the
   credits match token by token; when no amount is negative, that is when nothing moves into
   another token.
   */
  lemma {:induction false} MultiTransferTokens(env: Env, atoms: seq<AtomData>, source: WalletData,
                                               recipients: seq<Option<WalletData>>, remainder: WalletData,
                                               amounts: seq<int>, placed: seq<AtomData>)
    requires |recipients| == |amounts|
    requires InitValues(env, atoms, Some(source), recipients, Some(remainder), amounts) == (Ok, placed)
    ensures atoms <= placed
    ensures TokensBalance(Ledger(placed[|atoms|..])) <==>
              source.balance > -1.0 && TokensMatch(source, recipients, remainder, amounts)
    ensures (forall i :: 0 <= i < |amounts| ==> amounts[i] >= 0) ==>
              (TokensBalance(Ledger(placed[|atoms|..])) <==>
                 source.balance > -1.0 && KeepsToken(source, recipients, remainder, amounts))
  {
    hide InitValues, Appended, Truncate, Total, HoldersOf, CreditsMatch, TokensBalance, Sum;
    var balance, parties := Truncate(source.balance), HoldersOf(recipients) + [Holder(remainder)];
    var shares := amounts + [balance - Total(amounts)];
    var debit, credits := Debit(Payer(source), balance), Credits(parties, shares);
    InitValuesBooks(env, atoms, source, recipients, remainder, amounts, placed);
    AppendedTokens(atoms, placed, [debit] + credits);
    if balance < 0 {
      NoNumber(debit, credits);
    } else {
      SumToZero(Payer(source), balance, HoldersOf(recipients), amounts, Holder(remainder));
      TokensBalanced(debit, credits);
      DebitMatched(debit, credits);
      CreditsIn(HoldersOf(recipients), amounts, Holder(remainder), balance - Total(amounts), source.token);
    }
  }

  lemma {:induction false} CreditsIn(parties: seq<Party>, amounts: seq<int>, last: Party, rest: int, token: Text)
    requires |parties| == |amounts|
    ensures AllIn(Credits(parties + [last], amounts + [rest]), token) <==>
              (forall i :: 0 <= i < |amounts| && amounts[i] != 0 ==> parties[i].token == token) &&
              (rest != 0 ==> last.token == token)
  {
    var credits := Credits(parties + [last], amounts + [rest]);
    assert credits[|amounts|] == Entry(last, Some(rest));
    forall i | 0 <= i < |amounts| ensures credits[i] == Entry(parties[i], Some(amounts[i])) {
    }
  }

  /** A successful deposit or withdrawal: exactly when nothing moves into another token. */
  lemma {:induction false} BufferTokens(env: Env, atoms: seq<AtomData>, source: WalletData, middle: WalletData,
                                        remainder: WalletData, amount: int, deposit: bool, placed: seq<AtomData>)
    requires InitBuffer(env, atoms, Some(source), Some(middle), Some(remainder), amount, deposit) == (Ok, placed)
    ensures atoms <= placed &&
            (TokensBalance(Ledger(placed[|atoms|..])) <==>
               (deposit && amount != 0 ==> middle.token == source.token) &&
               (amount != Truncate(source.balance) ==> remainder.token == source.token))
  {
    assert amount >= 0;
    hide InitBuffer, Appended, TokensBalance, Truncate;
    var balance := Truncate(source.balance);
    var (debtor, credited, rest) := BufferParties(source, middle, remainder, deposit);
    InitBufferConserves(env, atoms, source, middle, remainder, amount, deposit, placed);
    AppendedTokens(atoms, placed, Exchange(debtor, balance, credited, amount, rest));
    ExchangeTokens(debtor, balance, credited, amount, rest);
  }

  /** A successful burn: exactly when the balance is a number and no remainder moves into another token. */
  lemma {:induction false} BurnTokens(env: Env, atoms: seq<AtomData>, source: WalletData, remainder: WalletData,
                                      amount: int, placed: seq<AtomData>)
    requires InitBurn(env, atoms, Some(source), Some(remainder), amount) == (Ok, placed)
    ensures atoms <= placed &&
            (TokensBalance(Ledger(placed[|atoms|..])) <==>
               source.balance > -1.0 &&
               (amount != Truncate(source.balance) ==> remainder.token == source.token))
  {
    TruncateAtLeast(source.balance, amount);
    hide InitBurn, Appended, TokensBalance, Truncate;
    var balance, burned := Truncate(source.balance), Party(Some(""), source.token, Some(ZERO_BUNDLE));
    InitBurnConserves(env, atoms, source, remainder, amount, placed);
    AppendedTokens(atoms, placed, Exchange(Payer(source), balance, burned, amount, Holder(remainder)));
    ExchangeTokens(Payer(source), balance, burned, amount, Holder(remainder));
  }

  /** Four entries in one token. */
  lemma {:induction false} FusionEntriesTokens(source: WalletData, recipient: WalletData, remainder: WalletData, count: int)
    requires 1 <= count <= Truncate(source.balance)
    ensures TokensBalance(EntriesOf(source, recipient, remainder, count))
  {
    hide Truncate, TokensBalance, Sum;
    var entries := EntriesOf(source, recipient, remainder, count);
    EntriesSum(source, recipient, remainder, count);
    assert entries == [entries[0]] + entries[1..];
    TokensBalanced(entries[0], entries[1..]);
  }

  /** A successful fusion always balances every token: all its atoms are in the source's. */
  lemma {:induction false} FusionTokens(env: Env, text: JsonText, atoms: seq<AtomData>, source: WalletData,
                                        recipient: WalletData, remainder: WalletData, ids: seq<Text>, newId: Text,
                                        drawn: Batches, placed: seq<AtomData>)
    requires InitFuseToken(env, text, atoms, Some(source), Some(recipient), Some(remainder), ids, newId, drawn) == (Ok, placed)
    ensures atoms <= placed && TokensBalance(Ledger(placed[|atoms|..]))
  {
    hide InitFuseToken, Appended, TokensBalance, Truncate, Kept, Sum, EntriesOf, DistinctIds, AllFound;
    var plan := FusionSucceeds(env, text, atoms, source, recipient, remainder, ids, newId, drawn, placed);
    PlacedBooks(atoms, plan, EntriesOf(source, recipient, remainder, |ids|), placed);
    AppendedTokens(atoms, placed, EntriesOf(source, recipient, remainder, |ids|));
    FusionEntriesTokens(source, recipient, remainder, |ids|);
  }
}
