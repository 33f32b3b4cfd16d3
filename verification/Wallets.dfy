/**
 Wallets and the splitting of stackable token units (src/wallet.c:560-762).

 token_units is an array each wallet owns; a split allocates fresh arrays and reassigns
 the fields. A unit is copied whole, so it is a value here.
 */
module Wallets {
  import opened Basics

  datatype TokenUnit = TokenUnit(id: Text, name: Text, metasJson: Text)

  /** The wallet fields the builders read. */
  datatype WalletData = WalletData(token: Text, position: Text, address: Text, bundleHash: Text, batchId: Text,
                                   balance: real, units: seq<TokenUnit>)

  class Wallet {
    var token: Text
    var position: Text
    var address: Text
    var bundleHash: Text
    var batchId: Text
    var balance: real
    var otsVersion: int
    var tokenUnits: array<TokenUnit>

    constructor (token: Text, position: Text, address: Text, bundleHash: Text, batchId: Text, balance: real,
                 otsVersion: int)
      ensures fresh(tokenUnits) && this.otsVersion == otsVersion
      ensures Data() == WalletData(token, position, address, bundleHash, batchId, balance, [])
    {
      this.token, this.position, this.address := token, position, address;
      this.bundleHash, this.batchId, this.balance, this.otsVersion := bundleHash, batchId, balance, otsVersion;
      tokenUnits := new TokenUnit[0];
    }

    function Units(): seq<TokenUnit>
      reads this, tokenUnits
    {
      tokenUnits[..]
    }

    function Data(): WalletData
      reads this, tokenUnits
    {
      WalletData(token, position, address, bundleHash, batchId, balance, Units())
    }
  }

  /** tu_id_in_units: a unit without an id is in no list, and a NULL entry matches nothing. */
  predicate Listed(u: TokenUnit, ids: seq<Text>) {
    u.id.Some? && u.id in ids
  }

  predicate ListedAny(u: TokenUnit, lists: seq<seq<Text>>) {
    exists r :: 0 <= r < |lists| && Listed(u, lists[r])
  }

  /** The units a selection keeps, in order. */
  function Select(units: seq<TokenUnit>, chosen: TokenUnit -> bool): seq<TokenUnit> {
    if units == [] then []
    else
      var front, last := Select(units[..|units| - 1], chosen), units[|units| - 1];
      if chosen(last) then front + [last] else front
  }

  function In(ids: seq<Text>): TokenUnit -> bool {
    u => Listed(u, ids)
  }

  function InAny(lists: seq<seq<Text>>): TokenUnit -> bool {
    u => ListedAny(u, lists)
  }

  function Not(chosen: TokenUnit -> bool): TokenUnit -> bool {
    u => !chosen(u)
  }

  /** c is a and b merged, each in its own order. */
  ghost predicate Interleaves(a: seq<TokenUnit>, b: seq<TokenUnit>, c: seq<TokenUnit>)
    decreases |c|
  {
    if c == [] then a == [] && b == []
    else
      (a != [] && a[|a| - 1] == c[|c| - 1] && Interleaves(a[..|a| - 1], b, c[..|c| - 1])) ||
      (b != [] && b[|b| - 1] == c[|c| - 1] && Interleaves(a, b[..|b| - 1], c[..|c| - 1]))
  }

  /** A selection and its complement partition the units and keep their order. */
  lemma {:induction false} SelectPartitions(units: seq<TokenUnit>, chosen: TokenUnit -> bool)
    ensures Interleaves(Select(units, chosen), Select(units, Not(chosen)), units)
    ensures multiset(Select(units, chosen)) + multiset(Select(units, Not(chosen))) == multiset(units)
    ensures forall u :: u in Select(units, chosen) <==> u in units && chosen(u)
  {
    if units != [] {
      var front, last := units[..|units| - 1], units[|units| - 1];
      SelectPartitions(front, chosen);
      assert units == front + [last];
      MergeOne(Select(front, chosen), Select(front, Not(chosen)), front, last, chosen(last));
    }
  }

  /** One more unit on one side and on the merged side. */
  lemma {:induction false} MergeOne(a: seq<TokenUnit>, b: seq<TokenUnit>, c: seq<TokenUnit>, u: TokenUnit, left: bool)
    requires Interleaves(a, b, c) && multiset(a) + multiset(b) == multiset(c)
    ensures Interleaves(if left then a + [u] else a, if left then b else b + [u], c + [u])
    ensures multiset(if left then a + [u] else a) + multiset(if left then b else b + [u]) == multiset(c + [u])
  {
    assert (a + [u])[..|a|] == a && (b + [u])[..|b|] == b && (c + [u])[..|c|] == c;
  }

  lemma {:induction false} SelectAgrees(units: seq<TokenUnit>, chosen: TokenUnit -> bool, other: TokenUnit -> bool)
    requires forall u :: u in units ==> chosen(u) == other(u)
    ensures Select(units, chosen) == Select(units, other)
  {
    if units != [] {
      SelectAgrees(units[..|units| - 1], chosen, other);
    }
  }

  /** What each recipient gets, merged over the recipients. */
  function Shares(units: seq<TokenUnit>, lists: seq<seq<Text>>): multiset<TokenUnit> {
    if lists == [] then multiset{}
    else Shares(units, lists[..|lists| - 1]) + multiset(Select(units, In(lists[|lists| - 1])))
  }

  predicate DisjointLists(lists: seq<seq<Text>>) {
    forall r, q :: 0 <= r < q < |lists| ==> forall id :: id in lists[r] && id.Some? ==> id !in lists[q]
  }

  lemma {:induction false} SelectUnion(units: seq<TokenUnit>, a: TokenUnit -> bool, b: TokenUnit -> bool, both: TokenUnit -> bool)
    requires forall u :: u in units ==> both(u) == (a(u) || b(u)) && !(a(u) && b(u))
    ensures multiset(Select(units, both)) == multiset(Select(units, a)) + multiset(Select(units, b))
  {
    if units != [] {
      SelectUnion(units[..|units| - 1], a, b, both);
    }
  }

  /** Disjoint lists share out exactly the sent units. */
  lemma {:induction false} SharesOfDisjointLists(units: seq<TokenUnit>, lists: seq<seq<Text>>)
    requires DisjointLists(lists)
    ensures Shares(units, lists) == multiset(Select(units, InAny(lists)))
  {
    if lists == [] {
      SelectNone(units, InAny(lists));
    } else {
      var front, last := lists[..|lists| - 1], lists[|lists| - 1];
      SharesOfDisjointLists(units, front);
      forall u | u in units
        ensures InAny(lists)(u) == (InAny(front)(u) || In(last)(u)) && !(InAny(front)(u) && In(last)(u))
      {
        AnySnoc(u, lists);
        if ListedAny(u, front) {
          var r :| 0 <= r < |front| && Listed(u, front[r]);
          assert lists[r] == front[r];
        }
      }
      SelectUnion(units, InAny(front), In(last), InAny(lists));
    }
  }

  lemma {:induction false} AnySnoc(u: TokenUnit, lists: seq<seq<Text>>)
    requires lists != []
    ensures ListedAny(u, lists) <==> ListedAny(u, lists[..|lists| - 1]) || Listed(u, lists[|lists| - 1])
  {
    var front := lists[..|lists| - 1];
    if ListedAny(u, lists) {
      var r :| 0 <= r < |lists| && Listed(u, lists[r]);
      assert r < |front| ==> front[r] == lists[r];
    }
    if ListedAny(u, front) {
      var r :| 0 <= r < |front| && Listed(u, front[r]);
      assert lists[r] == front[r];
    }
  }

  lemma {:induction false} SelectNone(units: seq<TokenUnit>, chosen: TokenUnit -> bool)
    requires forall u :: u in units ==> !chosen(u)
    ensures Select(units, chosen) == []
  {
    if units != [] {
      SelectNone(units[..|units| - 1], chosen);
    }
  }

  /** One list: of each unit all copies, exactly when it has an id and the id is listed. */
  lemma {:induction false} SelectById(units: seq<TokenUnit>, ids: seq<Text>, u: TokenUnit)
    ensures multiset(Select(units, In(ids)))[u] == if u.id.Some? && u.id in ids then multiset(units)[u] else 0
    ensures multiset(Select(units, Not(In(ids))))[u] == if u.id.Some? && u.id in ids then 0 else multiset(units)[u]
  {
    if units != [] {
      SelectById(units[..|units| - 1], ids, u);
      assert units == units[..|units| - 1] + [units[|units| - 1]];
    }
  }

  /** The units some list has the id of. */
  predicate IdInSome(u: TokenUnit, lists: seq<seq<Text>>) {
    u.id.Some? && exists r :: 0 <= r < |lists| && u.id in lists[r]
  }

  lemma {:induction false} SelectByIds(units: seq<TokenUnit>, lists: seq<seq<Text>>, u: TokenUnit)
    ensures multiset(Select(units, InAny(lists)))[u] == if IdInSome(u, lists) then multiset(units)[u] else 0
    ensures multiset(Select(units, Not(InAny(lists))))[u] == if IdInSome(u, lists) then 0 else multiset(units)[u]
  {
    if units != [] {
      var last := units[|units| - 1];
      SelectByIds(units[..|units| - 1], lists, u);
      assert units == units[..|units| - 1] + [last];
      SomeListed(last, lists);
    }
  }

  lemma {:induction false} SomeListed(u: TokenUnit, lists: seq<seq<Text>>)
    ensures ListedAny(u, lists) <==> IdInSome(u, lists)
  {
    if ListedAny(u, lists) {
      var r :| 0 <= r < |lists| && Listed(u, lists[r]);
      assert u.id in lists[r];
    }
    if IdInSome(u, lists) {
      var r :| 0 <= r < |lists| && u.id in lists[r];
      assert Listed(u, lists[r]);
    }
  }

  /** Of these units the ones with a listed id, each as often as it was there. */
  ghost predicate HasListed(held: seq<TokenUnit>, units: seq<TokenUnit>, ids: seq<Text>) {
    forall u {:trigger multiset(held)[u]} ::
      multiset(held)[u] == if u.id.Some? && u.id in ids then multiset(units)[u] else 0
  }

  /** Of these units the ones without an id in the list. */
  ghost predicate HasOthers(held: seq<TokenUnit>, units: seq<TokenUnit>, ids: seq<Text>) {
    forall u {:trigger multiset(held)[u]} ::
      multiset(held)[u] == if u.id.None? || u.id !in ids then multiset(units)[u] else 0
  }

  lemma {:induction false} DividedById(units: seq<TokenUnit>, ids: seq<Text>)
    ensures HasListed(Select(units, In(ids)), units, ids) && HasOthers(Select(units, Not(In(ids))), units, ids)
  {
    forall u ensures multiset(Select(units, In(ids)))[u] == if u.id.Some? && u.id in ids then multiset(units)[u] else 0 {
      SelectById(units, ids, u);
    }
    forall u
      ensures multiset(Select(units, Not(In(ids))))[u] == if u.id.None? || u.id !in ids then multiset(units)[u] else 0
    {
      SelectById(units, ids, u);
    }
  }

  /** All the lists as one. */
  function Union(lists: seq<seq<Text>>): seq<Text> {
    if lists == [] then [] else Union(lists[..|lists| - 1]) + lists[|lists| - 1]
  }

  lemma {:induction false} InUnion(lists: seq<seq<Text>>, id: Text)
    ensures id in Union(lists) <==> exists r :: 0 <= r < |lists| && id in lists[r]
  {
    if lists != [] {
      var front, last := lists[..|lists| - 1], lists[|lists| - 1];
      InUnion(front, id);
      assert forall r :: 0 <= r < |front| ==> front[r] == lists[r];
      assert lists[|front|] == last;
    }
  }

  lemma {:induction false} DividedByIds(units: seq<TokenUnit>, lists: seq<seq<Text>>)
    ensures HasListed(Select(units, InAny(lists)), units, Union(lists))
    ensures HasOthers(Select(units, Not(InAny(lists))), units, Union(lists))
  {
    forall u
      ensures multiset(Select(units, InAny(lists)))[u]
           == if u.id.Some? && u.id in Union(lists) then multiset(units)[u] else 0
    {
      SelectByIds(units, lists, u);
      InUnion(lists, u.id);
    }
    forall u
      ensures multiset(Select(units, Not(InAny(lists))))[u]
           == if u.id.None? || u.id !in Union(lists) then multiset(units)[u] else 0
    {
      SelectByIds(units, lists, u);
      InUnion(lists, u.id);
    }
  }

  /** Copies the chosen units into a new array: counted first, then filled. */
  method CopySelected(units: array<TokenUnit>, chosen: TokenUnit -> bool) returns (copy: array<TokenUnit>)
    ensures fresh(copy) && copy[..] == Select(units[..], chosen)
  {
    ghost var s := units[..];
    var n := 0;
    for i := 0 to units.Length
      invariant n == |Select(s[..i], chosen)|
    {
      assert s[..i + 1][..i] == s[..i];
      if chosen(units[i]) {
        n := n + 1;
      }
    }
    assert s[..units.Length] == s;
    var blank := TokenUnit(None, None, None);
    copy := new TokenUnit[n](_ => blank);
    var si := 0;
    for i := 0 to units.Length
      invariant si == |Select(s[..i], chosen)| <= n
      invariant copy[..si] == Select(s[..i], chosen)
    {
      assert s[..i + 1][..i] == s[..i];
      SelectPrefix(s, chosen, i + 1);
      if chosen(units[i]) {
        copy[si] := units[i];
        si := si + 1;
      }
    }
    assert copy[..n] == copy[..];
  }

  lemma {:induction false} SelectPrefix(units: seq<TokenUnit>, chosen: TokenUnit -> bool, i: nat)
    requires i <= |units|
    ensures |Select(units[..i], chosen)| <= |Select(units, chosen)|
    decreases |units|
  {
    if i == |units| {
      assert units[..i] == units;
    } else {
      SelectPrefix(units[..|units| - 1], chosen, i);
      assert units[..|units| - 1][..i] == units[..i];
    }
  }

  /** The wallets' arrays. */
  ghost function ArraysOf(ws: seq<Wallet?>): (arrays: seq<array?<TokenUnit>>)
    reads ws
    ensures |arrays| == |ws|
  {
    seq(|ws|, i requires 0 <= i < |ws| reads ws => if ws[i] == null then null else ws[i].tokenUnits)
  }

  /** Of the first n wallets, no two share one of these arrays of theirs. */
  ghost predicate Unshared(ws: seq<Wallet?>, arrays: seq<array?<TokenUnit>>, n: nat)
    requires n <= |ws| == |arrays|
  {
    forall r, q :: 0 <= r < q < n && ws[r] != null && ws[q] != null && ws[r] != ws[q] ==> arrays[r] != arrays[q]
  }

  /** No two of the wallets share an array. */
  ghost predicate OwnArrays(ws: seq<Wallet?>)
    reads ws
  {
    Unshared(ws, ArraysOf(ws), |ws|)
  }

  lemma {:induction false} ThreeOwn(ws: seq<Wallet?>, arrays: seq<array?<TokenUnit>>)
    requires |ws| == |arrays| == 3
    requires ws[0] != null && ws[1] != null && ws[0] != ws[1] ==> arrays[0] != arrays[1]
    requires ws[0] != null && ws[2] != null && ws[0] != ws[2] ==> arrays[0] != arrays[2]
    requires ws[1] != null && ws[2] != null && ws[1] != ws[2] ==> arrays[1] != arrays[2]
    ensures Unshared(ws, arrays, 3)
  {
  }

  /**
   knishio_wallet_split_units; recipient may be absent, and a wallet may have several roles: the
   recipient's comes last, and the remainder's before it.
   */
  method SplitUnits(source: Wallet, ids: seq<Text>, remainder: Wallet, recipient: Wallet?) returns (ok: bool)
    modifies source`tokenUnits, remainder`tokenUnits, (if recipient == null then {} else {recipient})`tokenUnits
    ensures ok
    ensures ids == [] ==>
              source.tokenUnits == old(source.tokenUnits) && remainder.tokenUnits == old(remainder.tokenUnits) &&
              (recipient != null ==> recipient.tokenUnits == old(recipient.tokenUnits))
    ensures ids != [] && recipient != null ==> recipient.Units() == Select(old(source.Units()), In(ids))
    ensures ids != [] && remainder != recipient ==> remainder.Units() == Select(old(source.Units()), Not(In(ids)))
    ensures ids != [] && source != remainder ==> source.Units() == Select(old(source.Units()), In(ids))
    ensures ids != [] && recipient != null ==> HasListed(recipient.Units(), old(source.Units()), ids)
    ensures ids != [] && remainder != recipient ==> HasOthers(remainder.Units(), old(source.Units()), ids)
    ensures ids != [] && source != remainder ==> HasListed(source.Units(), old(source.Units()), ids)
    ensures ids != [] ==> OwnArrays([source, remainder, recipient]) && fresh(source.tokenUnits) && fresh(remainder.tokenUnits)
    ensures ids != [] && recipient != null ==> fresh(recipient.tokenUnits)
  {
    if |ids| == 0 {
      return true;
    }
    DividedById(source.Units(), ids);
    hide Select, Unshared, HasListed, HasOthers;
    var sent := CopySelected(source.tokenUnits, In(ids));
    var kept := CopySelected(source.tokenUnits, Not(In(ids)));
    var sentRecipient := sent;
    if recipient != null {
      sentRecipient := CopySelected(source.tokenUnits, In(ids));
    }
    source.tokenUnits := sent;
    remainder.tokenUnits := kept;
    if recipient != null {
      recipient.tokenUnits := sentRecipient;
    }
    ghost var three: seq<Wallet?> := [source, remainder, recipient];
    assert OwnArrays(three) by {
      ThreeOwn(three, ArraysOf(three));
    }
    return true;
  }

  /** No wallet is missing before place n. */
  predicate NoneMissing(ws: seq<Wallet?>, n: nat)
    requires n <= |ws|
  {
    forall k :: 0 <= k < n ==> ws[k] != null
  }

  /** The place of the first missing wallet, or the length. */
  function FirstMissing(ws: seq<Wallet?>): (n: nat)
    ensures n <= |ws| && NoneMissing(ws, n)
    ensures n < |ws| ==> ws[n] == null
  {
    if ws == [] || ws[0] == null then 0 else FirstMissing(ws[1..]) + 1
  }

  lemma {:induction false} FirstMissingIs(ws: seq<Wallet?>, n: nat)
    requires n <= |ws| && NoneMissing(ws, n) && (n < |ws| ==> ws[n] == null)
    ensures FirstMissing(ws) == n && (n == |ws| <==> null !in ws)
  {
    var m := FirstMissing(ws);
  }

  /** The source's units after the first r recipients were served: it may be one of them. */
  function Held(units: seq<TokenUnit>, lists: seq<seq<Text>>, recipients: seq<Wallet?>, source: Wallet, r: nat)
    : seq<TokenUnit>
    requires r <= |lists| == |recipients|
    decreases r, 0
  {
    if r == 0 then units
    else if recipients[r - 1] == source then ShareAt(units, lists, recipients, source, r - 1)
    else Held(units, lists, recipients, source, r - 1)
  }

  /** What recipient r gets. */
  function ShareAt(units: seq<TokenUnit>, lists: seq<seq<Text>>, recipients: seq<Wallet?>, source: Wallet, r: nat)
    : seq<TokenUnit>
    requires r < |lists| == |recipients|
    decreases r, 1
  {
    Select(Held(units, lists, recipients, source, r), In(lists[r]))
  }

  /** A source that is no recipient keeps its units. */
  lemma {:induction false} HeldByOther(units: seq<TokenUnit>, lists: seq<seq<Text>>, recipients: seq<Wallet?>,
                                       source: Wallet, r: nat)
    requires r <= |lists| == |recipients| && source !in recipients
    ensures Held(units, lists, recipients, source, r) == units
  {
    if r > 0 {
      HeldByOther(units, lists, recipients, source, r - 1);
    }
  }

  /** The wallet's last turn among the first n is at r. */
  predicate LastTurn(ws: seq<Wallet?>, r: nat, n: nat)
    requires r < n <= |ws|
  {
    forall q :: r < q < n ==> ws[q] != ws[r]
  }

  /** The first n wallets are there, and these arrays of theirs are not shared. */
  ghost predicate OwnSoFar(ws: seq<Wallet?>, arrays: seq<array?<TokenUnit>>, n: nat)
    requires n <= |ws| == |arrays|
  {
    NoneMissing(ws, n) && Unshared(ws, arrays, n)
  }

  /** The first n recipients hold, each in an array of its own, their own lists' units. */
  ghost predicate Served(units: seq<TokenUnit>, lists: seq<seq<Text>>, recipients: seq<Wallet?>, source: Wallet, n: nat)
    requires n <= |lists| == |recipients|
    reads recipients, set w: Wallet? | w in recipients && w != null :: w.tokenUnits
  {
    OwnSoFar(recipients, ArraysOf(recipients), n) &&
    forall r :: 0 <= r < n && LastTurn(recipients, r, n) ==>
      recipients[r].Units() == ShareAt(units, lists, recipients, source, r)
  }

  /** A new array for one wallet. */
  lemma {:induction false} OwnStep(ws: seq<Wallet?>, before: seq<array?<TokenUnit>>, after: seq<array?<TokenUnit>>,
                                   rw: Wallet, subset: array<TokenUnit>, r: nat)
    requires r < |ws| == |before| == |after| && ws[r] == rw && OwnSoFar(ws, before, r) && subset !in before
    requires forall i :: 0 <= i < |ws| ==> after[i] == if ws[i] == rw then subset else before[i]
    ensures OwnSoFar(ws, after, r + 1) && NoneMissing(ws, r + 1)
  {
  }

  /** New arrays for the source and the remainder. */
  lemma {:induction false} OwnEnd(ws: seq<Wallet?>, before: seq<array?<TokenUnit>>, all: seq<Wallet?>,
                                  after: seq<array?<TokenUnit>>, source: Wallet, sent: array<TokenUnit>,
                                  remainder: Wallet, kept: array<TokenUnit>)
    requires |ws| == |before| && |all| == |after| && Unshared(ws, before, |ws|) && all == ws + [source, remainder]
    requires sent !in before && kept !in before && sent != kept
    requires forall i :: 0 <= i < |all| && all[i] == remainder ==> after[i] == kept
    requires forall i :: 0 <= i < |all| && all[i] == source && all[i] != remainder ==> after[i] == sent
    requires forall i :: 0 <= i < |ws| && all[i] != source && all[i] != remainder ==> after[i] == before[i]
    ensures Unshared(all, after, |all|)
  {
  }

  /** Gives the recipient whose turn it is its copy. */
  method HandOver(rw: Wallet, subset: array<TokenUnit>, ghost lists: seq<seq<Text>>, ghost recipients: seq<Wallet?>,
                  ghost source: Wallet, ghost r: nat, ghost units: seq<TokenUnit>)
    requires r < |lists| == |recipients| && recipients[r] == rw
    requires Served(units, lists, recipients, source, r) && subset[..] == ShareAt(units, lists, recipients, source, r)
    requires subset !in ArraysOf(recipients)
    modifies rw`tokenUnits
    ensures Served(units, lists, recipients, source, r + 1) && rw.tokenUnits == subset
  {
    hide OwnSoFar, ShareAt;
    ghost var arrays := ArraysOf(recipients);
    rw.tokenUnits := subset;
    OwnStep(recipients, arrays, ArraysOf(recipients), rw, subset, r);
    forall q | 0 <= q < r + 1 && LastTurn(recipients, q, r + 1)
      ensures recipients[q].Units() == ShareAt(units, lists, recipients, source, q)
    {
      if q < r {
        EarlierTurn(recipients, q, r);
      }
    }
  }

  /** One recipient's turn. */
  method ServeOne(source: Wallet, lists: seq<seq<Text>>, rw: Wallet, ghost recipients: seq<Wallet?>, r: nat,
                  ghost units: seq<TokenUnit>)
    requires r < |lists| == |recipients| && recipients[r] == rw
    requires Served(units, lists, recipients, source, r) && source.Units() == Held(units, lists, recipients, source, r)
    modifies rw`tokenUnits
    ensures Served(units, lists, recipients, source, r + 1) && fresh(rw.tokenUnits)
    ensures source.Units() == Held(units, lists, recipients, source, r + 1)
  {
    TurnIs(units, lists, recipients, source, r);
    hide Select, ShareAt, Held, Served;
    var subset := CopySelected(source.tokenUnits, In(lists[r]));
    HandOver(rw, subset, lists, recipients, source, r, units);
  }

  lemma {:induction false} EarlierTurn(ws: seq<Wallet?>, q: nat, r: nat)
    requires q < r < |ws| && LastTurn(ws, q, r + 1)
    ensures ws[q] != ws[r] && LastTurn(ws, q, r)
  {
  }

  lemma {:induction false} TurnIs(units: seq<TokenUnit>, lists: seq<seq<Text>>, recipients: seq<Wallet?>, source: Wallet,
                                  r: nat)
    requires r < |lists| == |recipients|
    ensures var held, share := Held(units, lists, recipients, source, r), ShareAt(units, lists, recipients, source, r);
            Select(held, In(lists[r])) == share &&
            Held(units, lists, recipients, source, r + 1) == if recipients[r] == source then share else held
  {
  }

  lemma {:induction false} ServedNobody(units: seq<TokenUnit>, lists: seq<seq<Text>>, recipients: seq<Wallet?>,
                                        source: Wallet)
    requires |lists| == |recipients|
    ensures Served(units, lists, recipients, source, 0) && Held(units, lists, recipients, source, 0) == units
  {
  }

  /** The first n recipients have, of these units, the ones with an id of their own lists. */
  ghost predicate ServedById(units: seq<TokenUnit>, lists: seq<seq<Text>>, recipients: seq<Wallet?>, n: nat)
    requires n <= |lists| == |recipients|
    reads recipients, set w: Wallet? | w in recipients && w != null :: w.tokenUnits
  {
    forall r :: 0 <= r < n && LastTurn(recipients, r, n) ==>
      recipients[r] != null && HasListed(recipients[r].Units(), units, lists[r])
  }

  lemma {:induction false} ServedIds(units: seq<TokenUnit>, lists: seq<seq<Text>>, recipients: seq<Wallet?>,
                                     source: Wallet, n: nat)
    requires n <= |lists| == |recipients| && Served(units, lists, recipients, source, n) && source !in recipients
    ensures ServedById(units, lists, recipients, n)
  {
    hide HasListed, Unshared, Select;
    forall r | 0 <= r < n && LastTurn(recipients, r, n)
      ensures recipients[r] != null && HasListed(recipients[r].Units(), units, lists[r])
    {
      HeldByOther(units, lists, recipients, source, r);
      DividedById(units, lists[r]);
    }
  }

  lemma {:induction false} ServedMissing(units: seq<TokenUnit>, lists: seq<seq<Text>>, recipients: seq<Wallet?>,
                                         source: Wallet, n: nat)
    requires n <= |lists| == |recipients| && Served(units, lists, recipients, source, n)
    requires n < |recipients| ==> recipients[n] == null
    ensures FirstMissing(recipients) == n && (n == |recipients| <==> null !in recipients)
  {
    FirstMissingIs(recipients, n);
  }

  /** Step one of the multi split: each recipient its own copy, until one is missing. */
  method ServeRecipients(source: Wallet, lists: seq<seq<Text>>, recipients: seq<Wallet?>) returns (served: bool)
    requires |lists| == |recipients|
    modifies (set w <- recipients)`tokenUnits
    ensures served <==> null !in recipients
    ensures var n := FirstMissing(recipients);
            Served(old(source.Units()), lists, recipients, source, n) &&
            source.Units() == Held(old(source.Units()), lists, recipients, source, n) &&
            forall w :: w in recipients && w != null ==>
              if w in recipients[..n] then fresh(w.tokenUnits) else w.tokenUnits == old(w.tokenUnits)
    ensures source !in recipients ==>
              source.tokenUnits == old(source.tokenUnits) &&
              ServedById(old(source.Units()), lists, recipients, FirstMissing(recipients))
  {
    hide Select, Held, Served, ShareAt, FirstMissing, ServedById;
    ghost var units := source.Units();
    ServedNobody(units, lists, recipients, source);
    for r := 0 to |recipients|
      invariant Served(units, lists, recipients, source, r)
      invariant source.Units() == Held(units, lists, recipients, source, r)
      invariant source !in recipients ==> source.tokenUnits == old(source.tokenUnits)
      invariant forall w :: w in recipients && w != null ==>
                  if w in recipients[..r] then fresh(w.tokenUnits) else w.tokenUnits == old(w.tokenUnits)
    {
      var rw := recipients[r];
      if rw == null {
        ServedMissing(units, lists, recipients, source, r);
        if source !in recipients {
          ServedIds(units, lists, recipients, source, r);
        }
        return false;
      }
      ServeOne(source, lists, rw, recipients, r, units);
      TakeOne(recipients, r);
    }
    ServedMissing(units, lists, recipients, source, |recipients|);
    if source !in recipients {
      ServedIds(units, lists, recipients, source, |recipients|);
    }
    return true;
  }

  predicate NoneListed(lists: seq<seq<Text>>) {
    forall r :: 0 <= r < |lists| ==> lists[r] == []
  }

  /** Whether any list names an id. */
  method AnyListed(lists: seq<seq<Text>>) returns (anySent: bool)
    ensures anySent <==> !NoneListed(lists)
  {
    anySent := false;
    for r := 0 to |lists|
      invariant anySent <==> !NoneListed(lists[..r])
    {
      if |lists[r]| > 0 {
        anySent := true;
        assert lists[..r + 1][r] == lists[r];
      }
      assert lists[..r + 1] == lists[..r] + [lists[r]];
    }
    assert lists[..|lists|] == lists;
  }

  /** The recipients before the first missing one are served. */
  ghost predicate ServedSome(units: seq<TokenUnit>, lists: seq<seq<Text>>, recipients: seq<Wallet?>, source: Wallet)
    requires |lists| == |recipients|
    reads recipients, set w: Wallet? | w in recipients && w != null :: w.tokenUnits
  {
    Served(units, lists, recipients, source, FirstMissing(recipients))
  }

  /** The source keeps what any list names of its units, and the remainder has the rest. */
  ghost predicate Divided(units: seq<TokenUnit>, lists: seq<seq<Text>>, source: Wallet, remainder: Wallet)
    reads source, remainder, source.tokenUnits, remainder.tokenUnits
  {
    remainder.Units() == Select(units, Not(InAny(lists))) &&
    (source != remainder ==> source.Units() == Select(units, InAny(lists)))
  }

  /**
   A whole split: every recipient that is neither source nor remainder holds its list's units,
   and no two wallets share an array.
   */
  ghost predicate AllDivided(units: seq<TokenUnit>, lists: seq<seq<Text>>, recipients: seq<Wallet?>, source: Wallet,
                             remainder: Wallet)
    requires |lists| == |recipients|
    reads recipients, set w: Wallet? | w in recipients && w != null :: w.tokenUnits
    reads source, remainder, source.tokenUnits, remainder.tokenUnits
  {
    Divided(Held(units, lists, recipients, source, |recipients|), lists, source, remainder) &&
    OwnArrays(recipients + [source, remainder]) &&
    forall r :: 0 <= r < |recipients| && LastTurn(recipients, r, |recipients|) ==>
      recipients[r] == source || recipients[r] == remainder ||
      (recipients[r] != null &&
       recipients[r].Units() == ShareAt(units, lists, recipients, source, r))
  }

  /**
   A whole split by ids, when the source is no recipient: each recipient but the remainder has the
   units with an id of its own list, the source those of any list, and the remainder the others.
   */
  ghost predicate AllById(units: seq<TokenUnit>, lists: seq<seq<Text>>, recipients: seq<Wallet?>, source: Wallet,
                          remainder: Wallet)
    requires |lists| == |recipients|
    reads recipients, set w: Wallet? | w in recipients && w != null :: w.tokenUnits
    reads source, remainder, source.tokenUnits, remainder.tokenUnits
  {
    HasOthers(remainder.Units(), units, Union(lists)) &&
    (source != remainder ==> HasListed(source.Units(), units, Union(lists))) &&
    forall r :: 0 <= r < |recipients| && LastTurn(recipients, r, |recipients|) ==>
      recipients[r] == remainder || (recipients[r] != null && HasListed(recipients[r].Units(), units, lists[r]))
  }

  lemma {:induction false} AllIds(units: seq<TokenUnit>, lists: seq<seq<Text>>, recipients: seq<Wallet?>, source: Wallet,
                                  remainder: Wallet)
    requires |lists| == |recipients| && source !in recipients
    requires AllDivided(units, lists, recipients, source, remainder)
    ensures AllById(units, lists, recipients, source, remainder)
  {
    hide HasListed, HasOthers, Unshared, Select;
    HeldByOther(units, lists, recipients, source, |recipients|);
    DividedByIds(units, lists);
    forall r | 0 <= r < |recipients| && LastTurn(recipients, r, |recipients|)
      ensures recipients[r] == remainder || (recipients[r] != null && HasListed(recipients[r].Units(), units, lists[r]))
    {
      HeldByOther(units, lists, recipients, source, r);
      DividedById(units, lists[r]);
    }
  }

  /** Step two, after the recipients were served. */
  method DivideSource(source: Wallet, lists: seq<seq<Text>>, remainder: Wallet, ghost recipients: seq<Wallet?>,
                      ghost units: seq<TokenUnit>)
    requires |lists| == |recipients| && Served(units, lists, recipients, source, |recipients|)
    requires source.Units() == Held(units, lists, recipients, source, |recipients|)
    modifies source`tokenUnits, remainder`tokenUnits
    ensures fresh(source.tokenUnits) && fresh(remainder.tokenUnits)
    ensures AllDivided(units, lists, recipients, source, remainder)
  {
    hide Select, Held, ShareAt, Unshared;
    ghost var before := ArraysOf(recipients);
    var sent := CopySelected(source.tokenUnits, InAny(lists));
    var kept := CopySelected(source.tokenUnits, Not(InAny(lists)));
    source.tokenUnits := sent;
    remainder.tokenUnits := kept;
    ghost var all: seq<Wallet?> := recipients + [source, remainder];
    OwnEnd(recipients, before, all, ArraysOf(all), source, sent, remainder, kept);
  }

  /**
   knishio_wallet_split_units_multi. A missing recipient fails the call after the recipients
   before it were served; the source and the remainder are then untouched, unless they were
   among them.
   */
  method SplitUnitsMulti(source: Wallet, lists: seq<seq<Text>>, recipients: seq<Wallet?>, remainder: Wallet)
    returns (ok: bool)
    requires |lists| == |recipients|
    modifies source`tokenUnits, remainder`tokenUnits, (set w <- recipients)`tokenUnits
    ensures ok <==> NoneListed(lists) || null !in recipients
    ensures NoneListed(lists) ==>
              source.tokenUnits == old(source.tokenUnits) && remainder.tokenUnits == old(remainder.tokenUnits) &&
              forall w :: w in recipients && w != null ==> w.tokenUnits == old(w.tokenUnits)
    ensures !ok ==> ServedSome(old(source.Units()), lists, recipients, source)
    ensures !ok ==>
              forall w :: w in recipients + [source, remainder] && w != null &&
                          w !in recipients[..FirstMissing(recipients)] ==>
                w.tokenUnits == old(w.tokenUnits)
    ensures ok && !NoneListed(lists) ==> AllDivided(old(source.Units()), lists, recipients, source, remainder)
    ensures ok && !NoneListed(lists) && source !in recipients ==>
              AllById(old(source.Units()), lists, recipients, source, remainder)
    ensures !ok && source !in recipients ==>
              ServedById(old(source.Units()), lists, recipients, FirstMissing(recipients))
    ensures ok && !NoneListed(lists) ==>
              fresh(source.tokenUnits) && fresh(remainder.tokenUnits) &&
              forall w :: w in recipients && w != null ==> fresh(w.tokenUnits)
  {
    var anySent := AnyListed(lists);
    hide Select, NoneListed, Held, ShareAt, Served, AllDivided, Divided, ServedById, AllById;
    if !anySent {
      return true;
    }
    ghost var units := source.Units();
    var served := ServeRecipients(source, lists, recipients);
    if !served {
      return false;
    }
    FirstMissingIs(recipients, |recipients|);
    assert recipients[..|recipients|] == recipients;
    DivideSource(source, lists, remainder, recipients, units);
    if source !in recipients {
      AllIds(units, lists, recipients, source, remainder);
    }
    return true;
  }

  /** The one-recipient split is the multi-recipient split with one list. */
  lemma {:induction false} SplitIsOneListSplit(units: seq<TokenUnit>, ids: seq<Text>)
    ensures Select(units, InAny([ids])) == Select(units, In(ids))
    ensures Select(units, Not(InAny([ids]))) == Select(units, Not(In(ids)))
  {
    forall u | u in units ensures InAny([ids])(u) == In(ids)(u) {
      assert [ids][0] == ids;
    }
    SelectAgrees(units, InAny([ids]), In(ids));
    SelectAgrees(units, Not(InAny([ids])), Not(In(ids)));
  }
}
