/**
 Fusing stackable units into one (src/molecule.c:2333-2361, 2438-2649): which units are
 sent, kept, burned and embedded, and what the four atoms are worth. Units are told apart
 by their place in the source array, as the pointers of the source are.
 */
module Fusion {
  import opened Basics
  import opened Decimal
  import opened NumberPrinter
  import opened Atoms
  import opened AtomJson
  import opened AtomObject
  import opened SigningSteps
  import opened Wallets
  import opened Molecules
  import opened ValuePlans
  import opened Builders

  // ---------------------------------------------------------------- choosing the units

  /** find_token_unit: the place of the first unit of that id, or the length. */
  function Find(units: seq<TokenUnit>, id: Text): (i: nat)
    ensures i <= |units|
    ensures i < |units| ==> id.Some? && units[i].id == id
    ensures forall k :: 0 <= k < i && id.Some? ==> units[k].id != id
  {
    if id.None? then |units|
    else if units == [] then 0
    else if units[0].id == id then 0
    else
      var rest := Find(units[1..], id);
      assert forall k :: 0 < k <= rest ==> units[k] == units[1..][k - 1] || k == |units|;
      rest + 1
  }

  method FindUnit(units: array<TokenUnit>, id: Text) returns (i: nat)
    ensures i == Find(units[..], id)
  {
    if id.None? {
      return units.Length;
    }
    i := 0;
    while i < units.Length
      invariant i <= units.Length && forall k :: 0 <= k < i ==> units[k].id != id
    {
      if units[i].id.Some? && units[i].id == id {
        FirstFound(units[..], id, i);
        return i;
      }
      i := i + 1;
    }
    FirstFound(units[..], id, i);
  }

  lemma {:induction false} FirstFound(units: seq<TokenUnit>, id: Text, i: nat)
    requires i <= |units| && id.Some? && (i < |units| ==> units[i].id == id)
    requires forall k :: 0 <= k < i ==> units[k].id != id
    ensures Find(units, id) == i
  {
    ghost var j := Find(units, id);
  }

  predicate Found(units: seq<TokenUnit>, id: Text) {
    Find(units, id) < |units|
  }

  /** knishio_molecule_fusion_error: why a fusion is refused, NULL when it is not. */
  function FusionError(units: Option<seq<TokenUnit>>, ids: seq<Text>, newId: Text): Text {
    if |ids| < 2 then Some("Token fusion requires at least two token units")
    else if units.None? || exists j :: 0 <= j < |ids| && !Found(units.value, ids[j]) then
      Some("Token fusion unit not found in the source wallet")
    else if OrEmpty(newId) == "" then Some("Token fusion requires a new token unit id")
    else if Found(units.value, newId) then Some("Token fusion unit id already exists in the source wallet")
    else None
  }

  method CheckFusion(source: Wallet?, ids: seq<Text>, newId: Text) returns (message: Text)
    ensures message == FusionError(if source == null then None else Some(source.Units()), ids, newId)
  {
    if |ids| < 2 {
      return Some("Token fusion requires at least two token units");
    }
    if source == null {
      return Some("Token fusion unit not found in the source wallet");
    }
    for j := 0 to |ids|
      invariant forall k :: 0 <= k < j ==> Found(source.Units(), ids[k])
    {
      var i := FindUnit(source.tokenUnits, ids[j]);
      if i == source.tokenUnits.Length {
        assert !Found(source.Units(), ids[j]);
        return Some("Token fusion unit not found in the source wallet");
      }
    }
    if newId.None? || newId.value == "" {
      return Some("Token fusion requires a new token unit id");
    }
    var existing := FindUnit(source.tokenUnits, newId);
    if existing < source.tokenUnits.Length {
      return Some("Token fusion unit id already exists in the source wallet");
    }
    return None;
  }

  ghost predicate AllFound(units: seq<TokenUnit>, ids: seq<Text>) {
    forall j :: 0 <= j < |ids| ==> Found(units, ids[j])
  }

  /** The places of the fused units, in caller order. */
  function Places(units: seq<TokenUnit>, ids: seq<Text>): (places: seq<nat>)
    ensures |places| == |ids|
  {
    seq(|ids|, j requires 0 <= j < |ids| => Find(units, ids[j]))
  }

  predicate InUnits(units: seq<TokenUnit>, places: seq<nat>) {
    forall j :: 0 <= j < |places| ==> places[j] < |units|
  }

  /** The units at some places, in the order of the places. */
  function At(units: seq<TokenUnit>, places: seq<nat>): (chosen: seq<TokenUnit>)
    requires InUnits(units, places)
    ensures |chosen| == |places|
  {
    seq(|places|, j requires 0 <= j < |places| => units[places[j]])
  }

  /** Of the first n units, those whose place is (or is not) among the places, in source order. */
  function Picked(units: seq<TokenUnit>, places: seq<nat>, fused: bool, n: nat): (picked: seq<TokenUnit>)
    requires n <= |units|
    ensures |picked| <= n
  {
    if n == 0 then []
    else
      var front := Picked(units, places, fused, n - 1);
      if (n - 1 in places) == fused then front + [units[n - 1]] else front
  }

  function Sent(units: seq<TokenUnit>, ids: seq<Text>): seq<TokenUnit> {
    Picked(units, Places(units, ids), true, |units|)
  }

  function Kept(units: seq<TokenUnit>, ids: seq<Text>): seq<TokenUnit> {
    Picked(units, Places(units, ids), false, |units|)
  }

  function Fused(units: seq<TokenUnit>, ids: seq<Text>): (fused: seq<TokenUnit>)
    requires AllFound(units, ids)
    ensures |fused| == |ids|
  {
    At(units, Places(units, ids))
  }

  /** Sent and kept units partition the source's, in order. */
  lemma {:induction false} PickedPartitions(units: seq<TokenUnit>, places: seq<nat>, n: nat)
    requires n <= |units|
    ensures Interleaves(Picked(units, places, true, n), Picked(units, places, false, n), units[..n])
    ensures |Picked(units, places, true, n)| + |Picked(units, places, false, n)| == n
  {
    if n > 0 {
      PickedPartitions(units, places, n - 1);
      assert units[..n][..n - 1] == units[..n - 1];
      var s, k := Picked(units, places, true, n), Picked(units, places, false, n);
      if n - 1 in places {
        assert s[..|s| - 1] == Picked(units, places, true, n - 1);
      } else {
        assert k[..|k| - 1] == Picked(units, places, false, n - 1);
      }
    }
  }

  /** Adding one place picks one unit more, unless it was picked already. */
  lemma {:induction false} PickedAdd(units: seq<TokenUnit>, places: seq<nat>, place: nat, n: nat)
    requires n <= |units| && place < |units|
    ensures multiset(Picked(units, places + [place], true, n))
         == multiset(Picked(units, places, true, n)) +
            if place < n && place !in places then multiset{units[place]} else multiset{}
  {
    if n > 0 {
      PickedAdd(units, places, place, n - 1);
      assert n - 1 in places + [place] <==> n - 1 in places || n - 1 == place;
    }
  }

  predicate DistinctPlaces(places: seq<nat>) {
    forall i, j :: 0 <= i < j < |places| ==> places[i] != places[j]
  }

  /** The picked units are the units at the places, exactly when no place is repeated. */
  lemma {:induction false} PickedPermutes(units: seq<TokenUnit>, places: seq<nat>)
    requires InUnits(units, places)
    ensures |Picked(units, places, true, |units|)| <= |places|
    ensures |Picked(units, places, true, |units|)| == |places| <==> DistinctPlaces(places)
    ensures DistinctPlaces(places) ==> multiset(Picked(units, places, true, |units|)) == multiset(At(units, places))
  {
    if places == [] {
      PickedNone(units, |units|);
    } else {
      var front, last := places[..|places| - 1], places[|places| - 1];
      assert places == front + [last];
      PickedPermutes(units, front);
      PickedAdd(units, front, last, |units|);
      var all, some := Picked(units, places, true, |units|), Picked(units, front, true, |units|);
      assert |multiset(all)| == |all| && |multiset(some)| == |some|;
      assert At(units, places) == At(units, front) + [units[last]];
      assert DistinctPlaces(places) <==> DistinctPlaces(front) && last !in front;
    }
  }

  lemma {:induction false} PickedNone(units: seq<TokenUnit>, n: nat)
    requires n <= |units|
    ensures Picked(units, [], true, n) == []
  {
    if n > 0 {
      PickedNone(units, n - 1);
    }
  }

  predicate DistinctIds(ids: seq<Text>) {
    forall i, j :: 0 <= i < j < |ids| ==> ids[i] != ids[j]
  }

  lemma {:induction false} PlacesDistinct(units: seq<TokenUnit>, ids: seq<Text>)
    requires AllFound(units, ids)
    ensures InUnits(units, Places(units, ids))
    ensures DistinctPlaces(Places(units, ids)) <==> DistinctIds(ids)
  {
    var places := Places(units, ids);
    forall i, j | 0 <= i < j < |ids| ensures places[i] == places[j] <==> ids[i] == ids[j] {
      assert units[places[i]].id == ids[i] && units[places[j]].id == ids[j];
    }
    if DistinctIds(ids) {
      forall i, j | 0 <= i < j < |places| ensures places[i] != places[j] {
        assert ids[i] != ids[j];
      }
    }
    if DistinctPlaces(places) {
      forall i, j | 0 <= i < j < |ids| ensures ids[i] != ids[j] {
        assert places[i] != places[j];
      }
    }
  }

  /**
   Fusion accounting. Sent and kept units are an order-preserving partition of the source's.
   The sent units are the fused ones, each once, exactly when no id is named twice.
   */
  lemma {:induction false} FusionPartitions(units: seq<TokenUnit>, ids: seq<Text>)
    requires AllFound(units, ids)
    ensures Interleaves(Sent(units, ids), Kept(units, ids), units)
    ensures |Sent(units, ids)| + |Kept(units, ids)| == |units| && |Sent(units, ids)| <= |ids|
    ensures multiset(Sent(units, ids)) == multiset(Fused(units, ids)) <==> DistinctIds(ids)
    ensures |Sent(units, ids)| == |ids| <==> DistinctIds(ids)
  {
    var places := Places(units, ids);
    PlacesDistinct(units, ids);
    PickedPartitions(units, places, |units|);
    assert units[..|units|] == units;
    PickedPermutes(units, places);
    assert |multiset(Sent(units, ids))| == |Sent(units, ids)|;
    assert |multiset(Fused(units, ids))| == |ids|;
  }

  /** Naming one unit twice is not refused, and then fewer units are sent than are paid for. */
  lemma {:induction false} RepeatedId(units: seq<TokenUnit>, id: Text, newId: string)
    requires Found(units, id) && newId != "" && !Found(units, Some(newId))
    ensures FusionError(Some(units), [id, id], Some(newId)) == None
    ensures AllFound(units, [id, id]) && |Sent(units, [id, id])| < |Fused(units, [id, id])|
  {
    var ids := [id, id];
    assert ids[0] == ids[1] && !DistinctIds(ids);
    FusionPartitions(units, ids);
  }

  // ---------------------------------------------------------------- the texts

  /**
   cJSON_Parse and cJSON_PrintUnformatted. A parser reads arrays and objects nested up to a depth;
   the printer gives every digit of the numbers that are exact.
   */
  datatype JsonText = JsonText(parse: string -> Option<Json>, printJson: Json -> string, nesting: nat,
                               exact: Double -> bool)
  {
    /** A tree that survives printing: finite exact numbers, C strings, and no deeper than that. */
    predicate Printable(j: Json, depth: nat)
      decreases depth
    {
      match j
      case JNull => true
      case JBool(_) => true
      case JNum(v) => !v.NotFinite? && IsDouble(v) && (v.Finite? ==> Stripped(v.digits) == v.digits) && exact(v)
      case JStr(s) => NUL !in s
      case JArr(items) => depth > 0 && forall i :: 0 <= i < |items| ==> Printable(items[i], depth - 1)
      case JObj(members) =>
        depth > 0 &&
        forall i :: 0 <= i < |members| ==> NUL !in members[i].0 && Printable(members[i].1, depth - 1)
    }

    /** Parsing reads back such a tree, and an object of one member is printed around it. */
    ghost predicate Valid() {
      nesting >= 5 &&
      (forall j: Json {:trigger printJson(j)} ::
         Printable(j, nesting) ==> printJson(j) != "" && parse(printJson(j)) == Some(j)) &&
      (forall items: seq<Json> {:trigger JArr(items)} ::
         Printable(JArr(items), nesting - 1) ==>
           printJson(JObj([("fusedTokenUnits", JArr(items))]))
           == "{\"fusedTokenUnits\":" + printJson(JArr(items)) + "}")
    }

    /** The parsed metas of a unit: an empty object when they are absent or malformed. */
    function Metas(u: TokenUnit): Json {
      var metas := if OrEmpty(u.metasJson) == "" then None else parse(u.metasJson.value);
      if metas.Some? then metas.value else JObj([])
    }

    /** Units whose metas are printable inside a new unit, which puts them five levels down. */
    predicate Fits(units: seq<TokenUnit>) {
      nesting >= 5 &&
      forall i :: 0 <= i < |units| ==>
        NUL !in OrEmpty(units[i].id) && NUL !in OrEmpty(units[i].name) && Printable(Metas(units[i]), nesting - 5)
    }

    lemma {:induction false} PrintableWithin(j: Json, depth: nat, more: nat)
      requires Printable(j, depth) && depth <= more
      ensures Printable(j, more)
      decreases depth
    {
      match j
      case JArr(items) =>
        forall i | 0 <= i < |items| ensures Printable(items[i], more - 1) {
          PrintableWithin(items[i], depth - 1, more - 1);
        }
      case JObj(members) =>
        forall i | 0 <= i < |members| ensures NUL !in members[i].0 && Printable(members[i].1, more - 1) {
          PrintableWithin(members[i].1, depth - 1, more - 1);
        }
      case _ =>
    }

    /** The triples of fitting units are printable, on their own and inside a new unit. */
    lemma {:induction false} TriplesPrintable(units: seq<TokenUnit>)
      requires Fits(units)
      ensures Printable(JArr(Triples(this, units)), nesting - 3) && Printable(JArr(Triples(this, units)), nesting)
      ensures Printable(JArr(Triples(this, units)), nesting - 1)
    {
      var triples := Triples(this, units);
      forall i | 0 <= i < |triples| ensures Printable(triples[i], nesting - 4) {
        var fields := triples[i].items;
        assert Printable(fields[0], nesting - 5) && Printable(fields[1], nesting - 5) && Printable(fields[2], nesting - 5);
      }
      PrintableWithin(JArr(triples), nesting - 3, nesting);
      PrintableWithin(JArr(triples), nesting - 3, nesting - 1);
    }
  }

  /** token_unit_triple: [id, name, metas]. */
  function Triple(text: JsonText, u: TokenUnit): Json {
    JArr([JStr(OrEmpty(u.id)), JStr(OrEmpty(u.name)), text.Metas(u)])
  }

  function Triples(text: JsonText, units: seq<TokenUnit>): (triples: seq<Json>)
    ensures |triples| == |units|
  {
    seq(|units|, i requires 0 <= i < |units| => Triple(text, units[i]))
  }

  /** token_units_to_json. */
  function UnitsText(text: JsonText, units: seq<TokenUnit>): string {
    text.printJson(JArr(Triples(text, units)))
  }

  /** A unit on the wire: its id, its name and its metas, an empty object if they do not parse. */
  lemma {:induction false} WireTriple(text: JsonText, units: seq<TokenUnit>, i: nat)
    requires i < |units|
    ensures Triples(text, units)[i].JArr? && |Triples(text, units)[i].items| == 3
    ensures var u, items := units[i], Triples(text, units)[i].items;
            items[0] == JStr(if u.id.Some? then u.id.value else "") &&
            items[1] == JStr(if u.name.Some? then u.name.value else "") &&
            items[2] == if u.metasJson.Some? && u.metasJson.value != "" && text.parse(u.metasJson.value).Some?
                        then text.parse(u.metasJson.value).value else JObj([])
  {
  }

  /** The unit the fusion creates. */
  function NewUnit(text: JsonText, fused: seq<TokenUnit>, newId: string): TokenUnit {
    TokenUnit(Some(newId), Some(newId), Some("{\"fusedTokenUnits\":" + UnitsText(text, fused) + "}"))
  }

  /** The metas of the new unit. */
  function NewMetas(text: JsonText, fused: seq<TokenUnit>): Json {
    JObj([("fusedTokenUnits", JArr(Triples(text, fused)))])
  }

  /** Reading the new unit's wire text back gives every fused unit's triple, in caller order. */
  lemma {:induction false} NewUnitEmbedsFused(text: JsonText, fused: seq<TokenUnit>, newId: string)
    requires text.Valid() && text.Fits(fused) && NUL !in newId
    ensures text.parse(UnitsText(text, [NewUnit(text, fused, newId)]))
         == Some(JArr([JArr([JStr(newId), JStr(newId), JObj([("fusedTokenUnits", JArr(Triples(text, fused)))])])]))
    ensures UnitsText(text, [NewUnit(text, fused, newId)]) != ""
  {
    var metas, unit := NewMetas(text, fused), NewUnit(text, fused, newId);
    NewMetasPrintable(text, fused, newId);
    NewTriplePrintable(text, metas, newId);
    hide Triple, JsonText.Printable, JsonText.Fits, NewUnit;
    assert Triples(text, [unit]) == [Triple(text, unit)];
    TripleOf(text, unit, newId, metas);
  }

  lemma {:induction false} TripleOf(text: JsonText, u: TokenUnit, id: string, metas: Json)
    requires u.id == u.name == Some(id) && text.Metas(u) == metas
    ensures Triple(text, u) == JArr([JStr(id), JStr(id), metas])
  {
  }

  /** The metas of the new unit are printable two levels down, and parse to themselves. */
  lemma {:induction false} NewMetasPrintable(text: JsonText, fused: seq<TokenUnit>, newId: string)
    requires text.Valid() && text.Fits(fused)
    ensures text.Printable(NewMetas(text, fused), text.nesting - 2)
    ensures var unit := NewUnit(text, fused, newId);
            unit.id == unit.name == Some(newId) && text.Metas(unit) == NewMetas(text, fused)
  {
    var metas, unit := NewMetas(text, fused), NewUnit(text, fused, newId);
    text.TriplesPrintable(fused);
    hide Triples;
    assert NUL !in "fusedTokenUnits" && metas.members[0].1 == JArr(Triples(text, fused));
    assert text.Printable(metas, text.nesting - 2);
    text.PrintableWithin(metas, text.nesting - 2, text.nesting);
    assert unit.metasJson == Some(text.printJson(metas));
  }

  lemma {:induction false} NewTriplePrintable(text: JsonText, metas: Json, newId: string)
    requires text.nesting >= 2 && text.Printable(metas, text.nesting - 2) && NUL !in newId
    ensures text.Printable(JArr([JArr([JStr(newId), JStr(newId), metas])]), text.nesting)
  {
    var fields := [JStr(newId), JStr(newId), metas];
    assert forall i :: 0 <= i < |fields| ==> text.Printable(fields[i], text.nesting - 2);
    assert text.Printable(JArr(fields), text.nesting - 1);
  }

  // ---------------------------------------------------------------- the plan

  /** Batch ids drawn for the burn and the new unit; None where drawing one fails. */
  datatype Batches = Batches(burn: Text, fusion: Text)

  /** set_atom_meta_pairs with the one key: an absent text gives no meta, a too long one is an error. */
  function BundleAtom(env: Env, isotope: Isotope, position: Text, address: Text, token: Text, value: string,
                      batchId: Text, metaId: Text, unitsText: Text): Planned {
    var walletBundle := if metaId.Some? then Some("walletBundle") else None;
    var metas := if OrEmpty(unitsText) == "" then [] else [Meta(Some("tokenUnits"), unitsText)];
    var planned := PlanAtom(env, position, address, isotope, token, value, batchId, walletBundle, metaId, metas);
    if planned.Success? && |OrEmpty(unitsText)| > MAX_META_VALUE then Failure(MemoryError) else planned
  }

  function FusionPlan(env: Env, text: JsonText, source: WalletData, recipient: WalletData, remainder: WalletData,
                      ids: seq<Text>, newId: string, batches: Batches): seq<Planned>
    requires AllFound(source.units, ids) && |ids| >= 1
  {
    var fused, kept := Fused(source.units, ids), Kept(source.units, ids);
    var balance, count := Truncate(source.balance), |ids|;
    [BundleAtom(env, V, source.position, source.address, source.token, "-" + IntText(balance), source.batchId, None,
                Some(UnitsText(text, Sent(source.units, ids)))),
     BundleAtom(env, V, Some(""), Some(""), source.token, IntText(count - 1), batches.burn, Some(ZERO_BUNDLE),
                Some(UnitsText(text, fused[..count - 1]))),
     BundleAtom(env, F, Some(OrEmpty(recipient.position)), Some(OrEmpty(recipient.address)), source.token, "1",
                batches.fusion, recipient.bundleHash, Some(UnitsText(text, [NewUnit(text, fused, newId)]))),
     BundleAtom(env, V, remainder.position, remainder.address, source.token, IntText(balance - count), source.batchId,
                remainder.bundleHash, if kept == [] then None else Some(UnitsText(text, kept)))]
  }

  /** A batch id is drawn only for a source that has one. */
  function FusionBatches(source: WalletData, drawn: Batches): Option<Batches> {
    if OrEmpty(source.batchId) == "" then Some(Batches(None, None))
    else if drawn.burn.None? || drawn.fusion.None? then None
    else Some(drawn)
  }

  /** knishio_molecule_init_fuse_token. */
  function InitFuseToken(env: Env, text: JsonText, atoms: seq<AtomData>, source: Option<WalletData>,
                         recipient: Option<WalletData>, remainder: Option<WalletData>, ids: seq<Text>, newId: Text,
                         drawn: Batches): (Error, seq<AtomData>) {
    if recipient.None? || recipient.value.bundleHash.None? then (InvalidArgs, atoms)
    else if source.None? || remainder.None? then (InvalidState, atoms)
    else FuseUnits(env, text, atoms, source.value, recipient.value, remainder.value, ids, newId, drawn)
  }

  /** The fusion between wallets that are there. */
  function FuseUnits(env: Env, text: JsonText, atoms: seq<AtomData>, source: WalletData, recipient: WalletData,
                     remainder: WalletData, ids: seq<Text>, newId: Text, drawn: Batches): (Error, seq<AtomData>) {
    if FusionError(Some(source.units), ids, newId).Some? then (TransferBalance, atoms)
    else if Truncate(source.balance) < |ids| then (BalanceInsufficient, atoms)
    else if FusionBatches(source, drawn).None? then (CryptoError, atoms)
    else
      Placed(atoms, FusionPlan(env, text, source, recipient, remainder, ids, newId.value,
                               FusionBatches(source, drawn).value))
  }

  /** Between real wallets, a fusion is refused for its units exactly when there is a fusion error; then no atom is added. */
  lemma {:induction false} FusionRefused(env: Env, text: JsonText, atoms: seq<AtomData>, source: WalletData,
                                         recipient: WalletData, remainder: WalletData, ids: seq<Text>, newId: Text,
                                         drawn: Batches)
    requires recipient.bundleHash.Some?
    ensures var outcome := InitFuseToken(env, text, atoms, Some(source), Some(recipient), Some(remainder), ids, newId, drawn);
            (outcome.0 == TransferBalance <==> FusionError(Some(source.units), ids, newId).Some?) &&
            (outcome.0 == TransferBalance ==> outcome.1 == atoms)
  {
    hide UnitsText, NewUnit, Sent, Kept, IntText, Find, Truncate, Placed;
    if FusionError(Some(source.units), ids, newId).None? && Truncate(source.balance) >= |ids| {
      match FusionBatches(source, drawn)
      case None =>
      case Some(batches) =>
        NeverTransferBalance(atoms, FusionPlan(env, text, source, recipient, remainder, ids, newId.value, batches));
    }
  }

  /** Some unit has the id. */
  ghost predicate Names(units: seq<TokenUnit>, id: Text) {
    id.Some? && exists u :: u in units && u.id == id
  }

  lemma {:induction false} FoundNames(units: seq<TokenUnit>, id: Text)
    ensures Found(units, id) <==> Names(units, id)
  {
    var i := Find(units, id);
    if i < |units| {
      assert units[i] in units;
    }
  }

  /** Fewer than two ids, an id no unit has, no new id, or a new id some unit has. */
  ghost predicate Refusable(units: seq<TokenUnit>, ids: seq<Text>, newId: Text) {
    |ids| < 2 || (exists j :: 0 <= j < |ids| && !Names(units, ids[j])) || newId.None? || newId == Some("") ||
    Names(units, newId)
  }

  /** Which message a source's units, the ids and the new id give. */
  lemma {:induction false} FusionMessages(units: seq<TokenUnit>, ids: seq<Text>, newId: Text)
    ensures FusionError(Some(units), ids, newId)
         == if |ids| < 2 then Some("Token fusion requires at least two token units")
            else if exists j :: 0 <= j < |ids| && !Names(units, ids[j]) then
              Some("Token fusion unit not found in the source wallet")
            else if newId.None? || newId == Some("") then Some("Token fusion requires a new token unit id")
            else if Names(units, newId) then Some("Token fusion unit id already exists in the source wallet")
            else None
    ensures FusionError(Some(units), ids, newId).Some? <==> Refusable(units, ids, newId)
  {
    FoundNames(units, newId);
    forall j | 0 <= j < |ids| ensures Found(units, ids[j]) <==> Names(units, ids[j]) {
      FoundNames(units, ids[j]);
    }
    hide Found, Names;
  }

  /** Every refusal of a fusion before its first atom, in the order of the checks, and that it adds nothing. */
  lemma {:induction false} FusionAnswers(env: Env, text: JsonText, atoms: seq<AtomData>, source: WalletData,
                                         recipient: WalletData, remainder: WalletData, ids: seq<Text>, newId: Text,
                                         drawn: Batches)
    ensures var outcome := InitFuseToken(env, text, atoms, Some(source), Some(recipient), Some(remainder), ids, newId, drawn);
            if recipient.bundleHash.None? then outcome == (InvalidArgs, atoms)
            else if Refusable(source.units, ids, newId) then outcome == (TransferBalance, atoms)
            else if Truncate(source.balance) < |ids| then outcome == (BalanceInsufficient, atoms)
            else if OrEmpty(source.batchId) != "" && (drawn.burn.None? || drawn.fusion.None?) then
              outcome == (CryptoError, atoms)
            else outcome.0 != TransferBalance && atoms <= outcome.1
  {
    hide UnitsText, NewUnit, Sent, Kept, IntText, Find, Truncate, Placed, Refusable, FusionError, FusionPlan;
    FusionMessages(source.units, ids, newId);
    if recipient.bundleHash.Some? {
      FusionRefused(env, text, atoms, source, recipient, remainder, ids, newId, drawn);
      if !Refusable(source.units, ids, newId) && Truncate(source.balance) >= |ids| && FusionBatches(source, drawn).Some? {
        FusionGrows(env, text, atoms, source, recipient, remainder, ids, newId, FusionBatches(source, drawn).value);
      }
    }
  }

  lemma {:induction false} FusionGrows(env: Env, text: JsonText, atoms: seq<AtomData>, source: WalletData,
                                       recipient: WalletData, remainder: WalletData, ids: seq<Text>, newId: Text,
                                       batches: Batches)
    requires FusionError(Some(source.units), ids, newId).None?
    ensures AllFound(source.units, ids) && |ids| >= 1 && newId.Some?
    ensures atoms <= Placed(atoms, FusionPlan(env, text, source, recipient, remainder, ids, newId.value, batches)).1
  {
    hide UnitsText, NewUnit, Sent, Kept, IntText, Find, Truncate, Placed;
    FusionPlanBooks(env, text, source, recipient, remainder, ids, newId.value, batches);
    PlacedWhole(atoms, FusionPlan(env, text, source, recipient, remainder, ids, newId.value, batches));
  }

  lemma {:induction false} NeverTransferBalance(atoms: seq<AtomData>, plan: seq<Planned>)
    requires forall i :: 0 <= i < |plan| && plan[i].Failure? ==> plan[i].error == InvalidArgs || plan[i].error == MemoryError
    ensures Placed(atoms, plan).0 != TransferBalance
  {
    if plan != [] {
      NeverTransferBalance(atoms, plan[..|plan| - 1]);
    }
  }

  /** The entries of a fusion of count units. */
  function FusionEntries(balance: int, count: int, source: Party, recipient: Party, remainder: Party)
    : (entries: seq<Entry>)
    ensures |entries| == 4
  {
    [Debit(source, balance)] + Credits([Burned(source), recipient, remainder], [count - 1, 1, balance - count])
  }

  /** The burn account of a token. */
  function Burned(source: Party): Party {
    Party(Some(""), source.token, Some(ZERO_BUNDLE))
  }

  /** The entries of a fusion between these wallets; every atom is in the source's token. */
  function EntriesOf(source: WalletData, recipient: WalletData, remainder: WalletData, count: int): (entries: seq<Entry>)
    ensures |entries| == 4
  {
    FusionEntries(Truncate(source.balance), count, Payer(source),
                  Party(Some(OrEmpty(recipient.address)), source.token, recipient.bundleHash),
                  Party(remainder.address, source.token, remainder.bundleHash))
  }

  lemma {:induction false} FusionSum(balance: int, count: int, source: Party, recipient: Party, remainder: Party)
    ensures Sum(FusionEntries(balance, count, source, recipient, remainder)) == if balance >= 0 then Some(0) else None
  {
    TotalSnoc([], count - 1);
    TotalSnoc([count - 1], 1);
    assert [] + [count - 1] == [count - 1] && [count - 1] + [1] == [count - 1, 1];
    assert [count - 1, 1] + [balance - count] == [count - 1, 1, balance - count];
    assert [Burned(source), recipient] + [remainder] == [Burned(source), recipient, remainder];
    SumToZero(source, balance, [Burned(source), recipient], [count - 1, 1], remainder);
  }

  /**
   A successful fusion of M units debits B, credits the all-zeros bundle M - 1, the recipient's
   1 and the remainder's B - M, which is not negative, and so conserves value. When no id is
   named twice, B - M is the number of units kept exactly when B is the number of units the
   source had.
   */
  lemma {:induction false} FusionConserves(env: Env, text: JsonText, atoms: seq<AtomData>, source: WalletData,
                                           recipient: WalletData, remainder: WalletData, ids: seq<Text>, newId: Text,
                                           drawn: Batches, placed: seq<AtomData>)
    requires InitFuseToken(env, text, atoms, Some(source), Some(recipient), Some(remainder), ids, newId, drawn) == (Ok, placed)
    ensures Appended(atoms, placed, EntriesOf(source, recipient, remainder, |ids|))
    ensures Sum(Ledger(placed[|atoms|..])) == Some(0) && Truncate(source.balance) - |ids| >= 0
    ensures DistinctIds(ids) ==>
              (Truncate(source.balance) - |ids| == |Kept(source.units, ids)| <==>
               Truncate(source.balance) == |source.units|)
  {
    var plan := FusionSucceeds(env, text, atoms, source, recipient, remainder, ids, newId, drawn, placed);
    PlacedBooks(atoms, plan, EntriesOf(source, recipient, remainder, |ids|), placed);
    EntriesSum(source, recipient, remainder, |ids|);
    if DistinctIds(ids) {
      KeptCount(source.units, ids);
    }
  }

  lemma {:induction false} EntriesSum(source: WalletData, recipient: WalletData, remainder: WalletData, count: int)
    ensures Sum(EntriesOf(source, recipient, remainder, count)) == if Truncate(source.balance) >= 0 then Some(0) else None
  {
    FusionSum(Truncate(source.balance), count, Payer(source),
              Party(Some(OrEmpty(recipient.address)), source.token, recipient.bundleHash),
              Party(remainder.address, source.token, remainder.bundleHash));
  }

  lemma {:induction false} KeptCount(units: seq<TokenUnit>, ids: seq<Text>)
    requires AllFound(units, ids) && DistinctIds(ids)
    ensures |Kept(units, ids)| == |units| - |ids|
  {
    FusionPartitions(units, ids);
  }

  lemma {:induction false} FusionSucceeds(env: Env, text: JsonText, atoms: seq<AtomData>, source: WalletData,
                                          recipient: WalletData, remainder: WalletData, ids: seq<Text>, newId: Text,
                                          drawn: Batches, placed: seq<AtomData>)
    returns (plan: seq<Planned>)
    requires InitFuseToken(env, text, atoms, Some(source), Some(recipient), Some(remainder), ids, newId, drawn) == (Ok, placed)
    ensures AllFound(source.units, ids) && |ids| >= 2 && newId.Some? && Truncate(source.balance) >= |ids|
    ensures FusionBatches(source, drawn).Some?
    ensures plan == FusionPlan(env, text, source, recipient, remainder, ids, newId.value, FusionBatches(source, drawn).value)
    ensures Placed(atoms, plan) == (Ok, placed) && Refusals(plan)
    ensures Books(plan, EntriesOf(source, recipient, remainder, |ids|))
  {
    assert FusionError(Some(source.units), ids, newId).None?;
    var batches := FusionBatches(source, drawn).value;
    plan := FusionPlan(env, text, source, recipient, remainder, ids, newId.value, batches);
    FusionPlanBooks(env, text, source, recipient, remainder, ids, newId.value, batches);
  }

  lemma {:induction false} FusionPlanBooks(env: Env, text: JsonText, source: WalletData, recipient: WalletData,
                                           remainder: WalletData, ids: seq<Text>, newId: string, batches: Batches)
    requires AllFound(source.units, ids) && |ids| >= 1
    ensures var plan := FusionPlan(env, text, source, recipient, remainder, ids, newId, batches);
            Refusals(plan) &&
            Books(plan, EntriesOf(source, recipient, remainder, |ids|))
  {
    hide UnitsText, NewUnit, Sent, Kept, Fused, FusionEntries, Books, IntText, Truncate, EntryOf;
    var plan := FusionPlan(env, text, source, recipient, remainder, ids, newId, batches);
    FusionBooked(plan, Truncate(source.balance), |ids|, Payer(source),
                 Party(Some(OrEmpty(recipient.address)), source.token, recipient.bundleHash),
                 Party(remainder.address, source.token, remainder.bundleHash));
  }

  lemma {:induction false} FusionBooked(plan: seq<Planned>, balance: int, count: int, source: Party,
                                        recipient: Party, remainder: Party)
    requires |plan| == 4
    requires plan[0].Success? ==> PartyOf(plan[0].value) == source && plan[0].value.value == Some("-" + IntText(balance))
    requires plan[1].Success? ==> PartyOf(plan[1].value) == Burned(source) && plan[1].value.value == Some(IntText(count - 1))
    requires plan[2].Success? ==> PartyOf(plan[2].value) == recipient && plan[2].value.value == Some("1")
    requires plan[3].Success? ==> PartyOf(plan[3].value) == remainder && plan[3].value.value == Some(IntText(balance - count))
    ensures Books(plan, FusionEntries(balance, count, source, recipient, remainder))
  {
    hide ValueOfText, IntText, EntryOf, Books;
    DebitIs(plan[0], source, balance);
    CreditIs(plan[1], Burned(source), count - 1);
    OneText();
    CreditIs(plan[2], recipient, 1);
    CreditIs(plan[3], remainder, balance - count);
    FourBooked(plan, FusionEntries(balance, count, source, recipient, remainder));
  }

  lemma {:induction false} OneText()
    ensures IntText(1) == "1"
  {
  }

  lemma {:induction false} FourBooked(plan: seq<Planned>, entries: seq<Entry>)
    requires |plan| == |entries| == 4
    requires plan[0].Success? ==> EntryOf(plan[0].value) == entries[0]
    requires plan[1].Success? ==> EntryOf(plan[1].value) == entries[1]
    requires plan[2].Success? ==> EntryOf(plan[2].value) == entries[2]
    requires plan[3].Success? ==> EntryOf(plan[3].value) == entries[3]
    ensures Books(plan, entries)
  {
  }

  /** The units an atom carries, read back from its tokenUnits meta. */
  function WireUnits(text: JsonText, a: AtomData): Option<Json> {
    if |a.meta| == 1 && a.meta[0].Meta? && a.meta[0].key == Some("tokenUnits") && a.meta[0].value.Some?
    then text.parse(a.meta[0].value.value) else None
  }

  /**
   What the four atoms carry: the sent units; all fused units but the last; the new unit,
   which embeds every fused unit in caller order; and the kept units, if there are any.
   */
  ghost predicate CarriesUnits(text: JsonText, four: seq<AtomData>, sent: seq<TokenUnit>, fused: seq<TokenUnit>,
                               kept: seq<TokenUnit>, newId: string)
  {
    |four| == 4 && fused != [] &&
    WireUnits(text, four[0]) == Some(JArr(Triples(text, sent))) &&
    WireUnits(text, four[1]) == Some(JArr(Triples(text, fused[..|fused| - 1]))) &&
    WireUnits(text, four[2])
    == Some(JArr([JArr([JStr(newId), JStr(newId), JObj([("fusedTokenUnits", JArr(Triples(text, fused)))])])])) &&
    WireUnits(text, four[3]) == if kept == [] then None else Some(JArr(Triples(text, kept)))
  }

  /** The atoms of a fusion carry those units, read back from their JSON. */
  lemma {:induction false} FusionUnits(env: Env, text: JsonText, atoms: seq<AtomData>, source: WalletData,
                                       recipient: WalletData, remainder: WalletData, ids: seq<Text>, newId: Text,
                                       drawn: Batches, placed: seq<AtomData>)
    requires text.Valid() && text.Fits(source.units) && NUL !in OrEmpty(newId)
    requires InitFuseToken(env, text, atoms, Some(source), Some(recipient), Some(remainder), ids, newId, drawn) == (Ok, placed)
    ensures atoms <= placed && newId.Some? && AllFound(source.units, ids)
    ensures CarriesUnits(text, placed[|atoms|..], Sent(source.units, ids), Fused(source.units, ids),
                         Kept(source.units, ids), newId.value)
  {
    var plan := FusionSucceeds(env, text, atoms, source, recipient, remainder, ids, newId, drawn, placed);
    var batches := FusionBatches(source, drawn).value;
    hide InitFuseToken, FusionPlan, FusionBatches, EntriesOf, Books, Truncate, Placed, PlanUnits, CarriesUnits;
    hide Sent, Kept, Fused;
    ChosenFit(text, source.units, ids);
    FusionPlanUnits(env, text, source, recipient, remainder, ids, newId.value, batches);
    PlanUnitsPlaced(text, atoms, plan, placed, Sent(source.units, ids), Fused(source.units, ids),
                    Kept(source.units, ids), newId.value);
  }

  /** The units each planned atom carries. */
  ghost predicate PlanUnits(text: JsonText, plan: seq<Planned>, sent: seq<TokenUnit>, fused: seq<TokenUnit>,
                            kept: seq<TokenUnit>, newId: string)
  {
    |plan| == 4 && fused != [] &&
    (plan[0].Success? ==> WireUnits(text, plan[0].value) == Some(JArr(Triples(text, sent)))) &&
    (plan[1].Success? ==> WireUnits(text, plan[1].value) == Some(JArr(Triples(text, fused[..|fused| - 1])))) &&
    (plan[2].Success? ==>
       WireUnits(text, plan[2].value) == text.parse(UnitsText(text, [NewUnit(text, fused, newId)]))) &&
    (plan[3].Success? ==>
       WireUnits(text, plan[3].value) == if kept == [] then None else Some(JArr(Triples(text, kept))))
  }

  lemma {:induction false} FusionPlanUnits(env: Env, text: JsonText, source: WalletData, recipient: WalletData,
                                           remainder: WalletData, ids: seq<Text>, newId: string, batches: Batches)
    requires text.Valid() && text.Fits(source.units) && NUL !in newId && AllFound(source.units, ids) && |ids| >= 1
    ensures PlanUnits(text, FusionPlan(env, text, source, recipient, remainder, ids, newId, batches),
                      Sent(source.units, ids), Fused(source.units, ids), Kept(source.units, ids), newId)
  {
    hide Sent, Kept, Fused, IntText, Truncate, NewUnit, Triples, UnitsText, JsonText.Fits, JsonText.Valid;
    var fused := Fused(source.units, ids);
    ChosenFit(text, source.units, ids);
    NewUnitEmbedsFused(text, fused, newId);
    UnitsRead(text, Sent(source.units, ids));
    UnitsRead(text, fused[..|ids| - 1]);
    UnitsRead(text, Kept(source.units, ids));
  }

  /** The text of fitting units reads back as their triples. */
  lemma {:induction false} UnitsRead(text: JsonText, units: seq<TokenUnit>)
    requires text.Valid() && text.Fits(units)
    ensures UnitsText(text, units) != "" && text.parse(UnitsText(text, units)) == Some(JArr(Triples(text, units)))
  {
    text.TriplesPrintable(units);
  }

  /** The sent, kept and fused units are among the source's. */
  lemma {:induction false} ChosenFit(text: JsonText, units: seq<TokenUnit>, ids: seq<Text>)
    requires text.Fits(units) && AllFound(units, ids)
    ensures text.Fits(Sent(units, ids)) && text.Fits(Kept(units, ids)) && text.Fits(Fused(units, ids))
    ensures |ids| >= 1 ==> text.Fits(Fused(units, ids)[..|ids| - 1])
  {
    PickedFit(text, units, Places(units, ids), true, |units|);
    PickedFit(text, units, Places(units, ids), false, |units|);
  }

  lemma {:induction false} PickedFit(text: JsonText, units: seq<TokenUnit>, places: seq<nat>, fused: bool, n: nat)
    requires text.Fits(units) && n <= |units|
    ensures text.Fits(Picked(units, places, fused, n))
  {
    if n > 0 {
      PickedFit(text, units, places, fused, n - 1);
    }
  }

  lemma {:induction false} PlanUnitsPlaced(text: JsonText, atoms: seq<AtomData>, plan: seq<Planned>,
                                           placed: seq<AtomData>, sent: seq<TokenUnit>, fused: seq<TokenUnit>,
                                           kept: seq<TokenUnit>, newId: string)
    requires text.Valid() && text.Fits(fused) && NUL !in newId
    requires Refusals(plan) && Placed(atoms, plan) == (Ok, placed) && PlanUnits(text, plan, sent, fused, kept, newId)
    ensures atoms <= placed && CarriesUnits(text, placed[|atoms|..], sent, fused, kept, newId)
  {
    NewUnitEmbedsFused(text, fused, newId);
    hide Triples, UnitsText, NewUnit, Placed;
    WiredAt(text, atoms, plan, placed, 0);
    WiredAt(text, atoms, plan, placed, 1);
    WiredAt(text, atoms, plan, placed, 2);
    WiredAt(text, atoms, plan, placed, 3);
  }

  lemma {:induction false} WiredAt(text: JsonText, atoms: seq<AtomData>, plan: seq<Planned>, placed: seq<AtomData>, k: nat)
    requires Refusals(plan) && Placed(atoms, plan) == (Ok, placed) && k < |plan|
    ensures atoms <= placed && |placed| == |atoms| + |plan| && plan[k].Success?
    ensures WireUnits(text, placed[|atoms|..][k]) == WireUnits(text, plan[k].value)
  {
    PlacedWhole(atoms, plan);
    assert placed[|atoms| + k] == plan[k].value.(index := |atoms| + k);
  }

  // ---------------------------------------------------------------- on the molecule object

  /** add_bundle_atom. */
  method AddBundleAtom(mol: Molecule, env: Env, isotope: Isotope, position: Text, address: Text, token: Text,
                       value: string, batchId: Text, metaId: Text, unitsText: Text,
                       ghost start: seq<AtomData>, ghost plan: seq<Planned>, ghost k: nat)
    returns (error: Error)
    requires Placing(mol, start, plan, k) && k < |plan|
    requires plan[k] == BundleAtom(env, isotope, position, address, token, value, batchId, metaId, unitsText)
    modifies mol`atoms, mol`atomCapacity, mol`molecularHash, mol`isSigned, mol`isVerified
    ensures PlacedNext(mol, error, start, plan, k + 1)
    ensures old(mol.atoms) <= mol.atoms && Voided(mol)
  {
    hide Placed, PlanAtom;
    var walletBundle := if metaId.Some? then Some("walletBundle") else None;
    var metas := if OrEmpty(unitsText) == "" then [] else [Meta(Some("tokenUnits"), unitsText)];
    if |OrEmpty(unitsText)| > MAX_META_VALUE {
      BundleRefused(env, isotope, position, address, token, value, batchId, metaId, unitsText);
      PlacedStep(start, plan, k);
      if Atom.Creatable(position, address, token) {
        return MemoryError;
      }
      return InvalidArgs;
    }
    error := AddPlanned(mol, env, position, address, isotope, token, value, batchId, walletBundle, metaId, metas,
                        start, plan, k);
  }

  lemma {:induction false} BundleRefused(env: Env, isotope: Isotope, position: Text, address: Text, token: Text,
                                         value: string, batchId: Text, metaId: Text, unitsText: Text)
    requires |OrEmpty(unitsText)| > MAX_META_VALUE
    ensures BundleAtom(env, isotope, position, address, token, value, batchId, metaId, unitsText)
         == Failure(if Atom.Creatable(position, address, token) then MemoryError else InvalidArgs)
  {
  }

  /** The places of the fused units. */
  method FindFused(units: array<TokenUnit>, ids: seq<Text>) returns (places: seq<nat>)
    ensures places == Places(units[..], ids)
  {
    places := [];
    for j := 0 to |ids|
      invariant |places| == j && forall k :: 0 <= k < j ==> places[k] == Find(units[..], ids[k])
    {
      var i := FindUnit(units, ids[j]);
      places := places + [i];
    }
  }

  /** The nested loops that divide the source's units. */
  method DivideUnits(units: array<TokenUnit>, places: seq<nat>) returns (sent: seq<TokenUnit>, kept: seq<TokenUnit>)
    ensures sent == Picked(units[..], places, true, units.Length)
    ensures kept == Picked(units[..], places, false, units.Length)
  {
    sent, kept := [], [];
    for i := 0 to units.Length
      invariant sent == Picked(units[..], places, true, i) && kept == Picked(units[..], places, false, i)
    {
      var isFused := false;
      for j := 0 to |places|
        invariant !isFused && i !in places[..j]
      {
        if places[j] == i {
          isFused := true;
          break;
        }
      }
      assert isFused <==> i in places by {
        assert places[..|places|] == places;
      }
      if isFused {
        sent := sent + [units[i]];
      } else {
        kept := kept + [units[i]];
      }
    }
  }

  /** knishio_molecule_init_fuse_token; drawn are the batch ids the generator would give. */
  method FuseToken(mol: Molecule, env: Env, text: JsonText, recipient: Wallet?, ids: seq<Text>, newId: Text,
                             drawn: Batches)
    returns (error: Error)
    requires mol.Valid() && IsInt(|ids|)
    requires mol.sourceWallet != null ==> InRange(mol.sourceWallet.balance, |ids|)
    modifies mol`atoms, mol`atomCapacity, mol`molecularHash, mol`isSigned, mol`isVerified
    ensures mol.Valid() && old(mol.atoms) <= mol.atoms && Voided(mol)
    ensures (error, DataOf(mol.atoms))
         == InitFuseToken(env, text, old(DataOf(mol.atoms)), View(mol.sourceWallet), View(recipient),
                          View(mol.remainderWallet), ids, newId, drawn)
  {
    hide FuseUnits;
    if recipient == null || recipient.bundleHash.None? {
      return InvalidArgs;
    }
    var source, remainder := mol.sourceWallet, mol.remainderWallet;
    if source == null || remainder == null {
      return InvalidState;
    }
    error := FuseFrom(mol, env, text, source, recipient.Data(), remainder.Data(), ids, newId, drawn);
  }

  /** From the fusion check on. */
  method FuseFrom(mol: Molecule, env: Env, text: JsonText, source: Wallet, recipient: WalletData, remainder: WalletData,
                  ids: seq<Text>, newId: Text, drawn: Batches)
    returns (error: Error)
    requires mol.Valid()
    modifies mol`atoms, mol`atomCapacity, mol`molecularHash, mol`isSigned, mol`isVerified
    ensures mol.Valid() && old(mol.atoms) <= mol.atoms && Voided(mol)
    ensures (error, DataOf(mol.atoms))
         == FuseUnits(env, text, old(DataOf(mol.atoms)), old(source.Data()), recipient, remainder, ids, newId, drawn)
  {
    hide Placed, Picked, Find, FusionPlan, Truncate, FusionBatches, Places;
    var message := CheckFusion(source, ids, newId);
    if message.Some? {
      return TransferBalance;
    }
    if Truncate(source.balance) < |ids| {
      return BalanceInsufficient;
    }
    var batches := FusionBatches(source.Data(), drawn);
    if batches.None? {
      return CryptoError;
    }
    assert AllFound(source.Units(), ids);
    var places := FindFused(source.tokenUnits, ids);
    var sent, kept := DivideUnits(source.tokenUnits, places);
    error := PlaceFusion(mol, env, text, source.Data(), recipient, remainder, ids, newId.value, batches.value, places,
                         sent, kept);
  }

  method PlaceFusion(mol: Molecule, env: Env, text: JsonText, source: WalletData, recipient: WalletData,
                     remainder: WalletData, ghost ids: seq<Text>, newId: string, batches: Batches, places: seq<nat>,
                     sent: seq<TokenUnit>, kept: seq<TokenUnit>)
    returns (error: Error)
    requires mol.Valid() && AllFound(source.units, ids) && |ids| >= 1 && places == Places(source.units, ids)
    requires sent == Sent(source.units, ids) && kept == Kept(source.units, ids)
    modifies mol`atoms, mol`atomCapacity, mol`molecularHash, mol`isSigned, mol`isVerified
    ensures mol.Valid() && old(mol.atoms) <= mol.atoms && Voided(mol)
    ensures (error, DataOf(mol.atoms))
         == Placed(old(DataOf(mol.atoms)), FusionPlan(env, text, source, recipient, remainder, ids, newId, batches))
  {
    ghost var plan := FusionPlan(env, text, source, recipient, remainder, ids, newId, batches);
    var fused := At(source.units, places);
    var count := |places|;
    var burned, created := UnitsText(text, fused[..count - 1]), UnitsText(text, [NewUnit(text, fused, newId)]);
    var keptText := if kept == [] then None else Some(UnitsText(text, kept));
    error := PlaceFour(mol, env, source, recipient, remainder, "-" + IntText(Truncate(source.balance)),
                       IntText(count - 1), IntText(Truncate(source.balance) - count), batches,
                       UnitsText(text, sent), burned, created, keptText, plan);
  }

  /** The four atoms, from their values and texts. */
  method PlaceFour(mol: Molecule, env: Env, source: WalletData, recipient: WalletData, remainder: WalletData,
                   debit: string, burn: string, rest: string, batches: Batches,
                   sent: string, burned: string, created: string, kept: Text, ghost plan: seq<Planned>)
    returns (error: Error)
    requires mol.Valid() && |plan| == 4
    requires plan[0] == BundleAtom(env, V, source.position, source.address, source.token, debit, source.batchId, None,
                                   Some(sent))
    requires plan[1] == BundleAtom(env, V, Some(""), Some(""), source.token, burn, batches.burn, Some(ZERO_BUNDLE),
                                   Some(burned))
    requires plan[2] == BundleAtom(env, F, Some(OrEmpty(recipient.position)), Some(OrEmpty(recipient.address)),
                                   source.token, "1", batches.fusion, recipient.bundleHash, Some(created))
    requires plan[3] == BundleAtom(env, V, remainder.position, remainder.address, source.token, rest, source.batchId,
                                   remainder.bundleHash, kept)
    modifies mol`atoms, mol`atomCapacity, mol`molecularHash, mol`isSigned, mol`isVerified
    ensures mol.Valid() && old(mol.atoms) <= mol.atoms && Voided(mol)
    ensures (error, DataOf(mol.atoms)) == Placed(old(DataOf(mol.atoms)), plan)
  {
    ghost var start := DataOf(mol.atoms);
    error := AddBundleAtom(mol, env, V, source.position, source.address, source.token, debit, source.batchId, None,
                           Some(sent), start, plan, 0);
    if error != Ok {
      return error;
    }
    error := AddBundleAtom(mol, env, V, Some(""), Some(""), source.token, burn, batches.burn, Some(ZERO_BUNDLE),
                           Some(burned), start, plan, 1);
    if error != Ok {
      return error;
    }
    error := AddBundleAtom(mol, env, F, Some(OrEmpty(recipient.position)), Some(OrEmpty(recipient.address)),
                           source.token, "1", batches.fusion, recipient.bundleHash, Some(created), start, plan, 2);
    if error != Ok {
      return error;
    }
    error := AddBundleAtom(mol, env, V, remainder.position, remainder.address, source.token, rest, source.batchId,
                           remainder.bundleHash, kept, start, plan, 3);
  }
}
