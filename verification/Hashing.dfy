/**
 What the molecular hash absorbs: the index-sorted atoms, as concatenated fields or,
 when every atom carries a version, as the Version4 view (src/molecule.c:645-819,
 src/atom.c:882-989), and what keeps it unchanged.
 */
module Hashing {
  import opened Basics
  import opened Decimal
  import opened Atoms
  import opened AtomJson

  // ---------------------------------------------------------------- sorting

  predicate IsSorted(s: seq<AtomData>) {
    forall i, j :: 0 <= i < j < |s| ==> s[i].index <= s[j].index
  }

  function Insert(s: seq<AtomData>, a: AtomData): (r: seq<AtomData>)
    ensures |r| == |s| + 1
  {
    if s == [] || s[|s| - 1].index <= a.index then s + [a]
    else Insert(s[..|s| - 1], a) + [s[|s| - 1]]
  }

  /** qsort by index; among equal indices, whose order qsort leaves open, the stable order. */
  function SortByIndex(s: seq<AtomData>): (r: seq<AtomData>)
    ensures |r| == |s|
  {
    if s == [] then [] else Insert(SortByIndex(s[..|s| - 1]), s[|s| - 1])
  }

  lemma {:induction false} InsertSorts(s: seq<AtomData>, a: AtomData)
    requires IsSorted(s)
    ensures IsSorted(Insert(s, a)) && multiset(Insert(s, a)) == multiset(s) + multiset{a}
  {
    if s != [] && s[|s| - 1].index > a.index {
      var front, last := s[..|s| - 1], s[|s| - 1];
      InsertSorts(front, a);
      assert s == front + [last];
      AppendLast(Insert(front, a), last, front, a);
    }
  }

  lemma {:induction false} AppendLast(r: seq<AtomData>, last: AtomData, front: seq<AtomData>, a: AtomData)
    requires IsSorted(r) && multiset(r) == multiset(front) + multiset{a} && IsSorted(front + [last])
    requires last.index > a.index
    ensures IsSorted(r + [last]) && multiset(r + [last]) == multiset(front + [last]) + multiset{a}
  {
    forall i | 0 <= i < |r| ensures r[i].index <= last.index {
      assert r[i] in multiset(front) + multiset{a};
      if r[i] in front {
        var k :| 0 <= k < |front| && front[k] == r[i];
        assert (front + [last])[k] == r[i] && (front + [last])[|front|] == last;
      }
    }
  }

  lemma {:induction false} SortSorts(s: seq<AtomData>)
    ensures IsSorted(SortByIndex(s)) && multiset(SortByIndex(s)) == multiset(s)
  {
    if s != [] {
      SortSorts(s[..|s| - 1]);
      InsertSorts(SortByIndex(s[..|s| - 1]), s[|s| - 1]);
      assert s == s[..|s| - 1] + [s[|s| - 1]];
    }
  }

  lemma {:induction false} SortOfSorted(s: seq<AtomData>)
    requires IsSorted(s)
    ensures SortByIndex(s) == s
  {
    if s != [] {
      var front, last := s[..|s| - 1], s[|s| - 1];
      DropLast(s);
      SortOfSorted(front);
      InsertLast(front, last);
    }
  }

  lemma {:induction false} InsertLast(s: seq<AtomData>, a: AtomData)
    requires s != [] ==> s[|s| - 1].index <= a.index
    ensures Insert(s, a) == s + [a]
  {
  }

  /** Atoms of one index are one value; distinct indices are the common case. */
  predicate IndexDetermines(s: seq<AtomData>) {
    forall a, b :: a in s && b in s && a.index == b.index ==> a == b
  }

  predicate DistinctIndices(s: seq<AtomData>) {
    forall i, j :: 0 <= i < j < |s| ==> s[i].index != s[j].index
  }

  lemma {:induction false} DistinctIndicesDetermine(s: seq<AtomData>)
    requires DistinctIndices(s)
    ensures IndexDetermines(s)
  {
    forall a, b | a in s && b in s && a.index == b.index ensures a == b {
      var i :| 0 <= i < |s| && s[i] == a;
      var j :| 0 <= j < |s| && s[j] == b;
    }
  }

  lemma {:induction false} SortedUnique(s: seq<AtomData>, t: seq<AtomData>)
    requires IsSorted(s) && IsSorted(t) && multiset(s) == multiset(t) && IndexDetermines(s)
    ensures s == t
  {
    assert |multiset(s)| == |s| && |multiset(t)| == |t|;
    if s != [] {
      var n := |s| - 1;
      SameLast(s, t);
      DropLast(s);
      DropLast(t);
      SortedUnique(s[..n], t[..n]);
    }
  }

  lemma {:induction false} DropLast(s: seq<AtomData>)
    requires s != []
    ensures s == s[..|s| - 1] + [s[|s| - 1]]
    ensures multiset(s[..|s| - 1]) == multiset(s) - multiset{s[|s| - 1]}
    ensures IsSorted(s) ==> IsSorted(s[..|s| - 1])
    ensures IndexDetermines(s) ==> IndexDetermines(s[..|s| - 1])
  {
    assert s == s[..|s| - 1] + [s[|s| - 1]];
  }

  lemma {:induction false} SameLast(s: seq<AtomData>, t: seq<AtomData>)
    requires IsSorted(s) && IsSorted(t) && multiset(s) == multiset(t) && IndexDetermines(s)
    requires |s| == |t| && s != []
    ensures s[|s| - 1] == t[|t| - 1]
  {
    var n := |s| - 1;
    assert s[n] in multiset(t) && t[n] in multiset(s);
    var i :| 0 <= i <= n && s[i] == t[n];
    var j :| 0 <= j <= n && t[j] == s[n];
    assert s[i].index <= s[n].index && t[j].index <= t[n].index;
  }

  /** Any sorted arrangement qsort may choose is this one, from any starting arrangement. */
  lemma {:induction false} SortUnique(s: seq<AtomData>, t: seq<AtomData>)
    requires multiset(s) == multiset(t) && IndexDetermines(s)
    ensures SortByIndex(t) == SortByIndex(s)
    ensures IsSorted(t) ==> t == SortByIndex(s)
  {
    SortSorts(s);
    SortSorts(t);
    forall a | a in SortByIndex(s) ensures a in s {
      assert a in multiset(SortByIndex(s));
    }
    SortedUnique(SortByIndex(s), SortByIndex(t));
    if IsSorted(t) {
      SortedUnique(SortByIndex(s), t);
    }
  }

  // ---------------------------------------------------------------- the two inputs

  function MetaPreimage(m: Meta): string {
    if m.Meta? && m.key.Some? && m.value.Some? then m.key.value + m.value.value else ""
  }

  function MetasPreimage(meta: seq<Meta>): string {
    if meta == [] then "" else MetasPreimage(meta[..|meta| - 1]) + MetaPreimage(meta[|meta| - 1])
  }

  /** update_sponge_with_atom. */
  function AtomPreimage(a: AtomData, count: string): string {
    FieldsPreimage(a, count) + MetasPreimage(a.meta) + IntText(CreatedMs(a))
  }

  function FieldsPreimage(a: AtomData, count: string): string {
    count + OrEmpty(a.position) + OrEmpty(a.walletAddress) + OrEmpty(IsotopeText(a.isotope)) +
    OrEmpty(a.token) + OrEmpty(a.value) + OrEmpty(a.batchId) + OrEmpty(a.metaType) + OrEmpty(a.metaId)
  }

  function LegacyPreimage(atoms: seq<AtomData>, count: string): string {
    if atoms == [] then "" else LegacyPreimage(atoms[..|atoms| - 1], count) + AtomPreimage(atoms[|atoms| - 1], count)
  }

  function Single(key: string, value: Json): Json {
    JObj([(key, value)])
  }

  function MetaView(m: Meta): seq<Json> {
    if m.NullMeta? then []
    else [JArr([Single("key", StringOrNull(m.key)), Single("value", StringOrNull(m.value))])]
  }

  function MetaViews(meta: seq<Meta>): seq<Json> {
    if meta == [] then [] else MetaViews(meta[..|meta| - 1]) + MetaView(meta[|meta| - 1])
  }

  /** atom_version4_view. */
  function AtomView(a: AtomData): Json {
    JArr([
      Single("batchId", StringOrNull(a.batchId)),
      Single("createdAt", JStr(IntText(CreatedMs(a)))),
      Single("index", IndexJson(a.index)),
      Single("isotope", StringOrNull(IsotopeText(a.isotope))),
      Single("meta", JArr(MetaViews(a.meta))),
      Single("metaId", StringOrNull(a.metaId)),
      Single("metaType", StringOrNull(a.metaType)),
      Single("position", StringOrNull(a.position)),
      Single("token", StringOrNull(a.token)),
      Single("value", StringOrNull(a.value)),
      Single("version", StringOrNull(a.version)),
      Single("walletAddress", StringOrNull(a.walletAddress))])
  }

  function AtomViews(atoms: seq<AtomData>): (views: seq<Json>)
    ensures |views| == |atoms|
  {
    seq(|atoms|, i requires 0 <= i < |atoms| => AtomView(atoms[i]))
  }

  predicate AllVersioned(atoms: seq<AtomData>) {
    forall i :: 0 <= i < |atoms| ==> atoms[i].version.Some?
  }

  /** The string generate_hash absorbs; print is cJSON_PrintUnformatted. */
  function HashedText(printJson: Json -> string, atoms: seq<AtomData>): string {
    var sorted := SortByIndex(atoms);
    if AllVersioned(sorted) then printJson(JArr(AtomViews(SortByIndex(sorted))))
    else LegacyPreimage(sorted, NatText(|atoms|))
  }

  // ---------------------------------------------------------------- invariance

  /** Any arrangement of the same atoms hashes the same input. */
  lemma {:induction false} PermutationInvariant(printJson: Json -> string, s: seq<AtomData>, t: seq<AtomData>)
    requires multiset(s) == multiset(t) && IndexDetermines(s)
    ensures HashedText(printJson, s) == HashedText(printJson, t)
  {
    SortUnique(s, t);
    assert |multiset(s)| == |s| && |multiset(t)| == |t|;
  }

  lemma {:induction false} LegacySame(s: seq<AtomData>, t: seq<AtomData>, count: string)
    requires |s| == |t| && forall i :: 0 <= i < |s| ==> AtomPreimage(s[i], count) == AtomPreimage(t[i], count)
    ensures LegacyPreimage(s, count) == LegacyPreimage(t, count)
  {
    if s != [] {
      LegacySame(s[..|s| - 1], t[..|t| - 1], count);
    }
  }

  /** Replacing sorted atoms one for one by atoms that hash alike keeps the input. */
  lemma {:induction false} SortedSame(printJson: Json -> string, s: seq<AtomData>, t: seq<AtomData>)
    requires IsSorted(s) && |s| == |t|
    requires forall i :: 0 <= i < |s| ==> s[i].index == t[i].index && s[i].version.Some? == t[i].version.Some?
    requires forall i :: 0 <= i < |s| ==> AtomPreimage(s[i], NatText(|s|)) == AtomPreimage(t[i], NatText(|s|))
    requires AllVersioned(s) ==> forall i :: 0 <= i < |s| ==> AtomView(s[i]) == AtomView(t[i])
    ensures HashedText(printJson, s) == HashedText(printJson, t)
  {
    hide SortByIndex, AtomPreimage, NatText, AtomView, LegacyPreimage;
    var count := NatText(|s|);
    SortOfSorted(s);
    SortOfSorted(t);
    LegacySame(s, t, count);
    assert AllVersioned(s) == AllVersioned(t);
    if AllVersioned(s) {
      assert AtomViews(s) == AtomViews(t);
    }
  }

  /** One-time-signature fragments are not hashed. */
  lemma {:induction false} FragmentNotHashed(a: AtomData, fragment: Text, count: string)
    ensures AtomPreimage(a.(otsFragment := fragment), count) == AtomPreimage(a, count)
    ensures AtomView(a.(otsFragment := fragment)) == AtomView(a)
  {
  }

  /** Sorting twice is sorting once, so hashing the sorted molecule hashes the molecule. */
  lemma {:induction false} SortedInput(printJson: Json -> string, s: seq<AtomData>)
    ensures HashedText(printJson, SortByIndex(s)) == HashedText(printJson, s)
  {
    SortSorts(s);
    SortOfSorted(SortByIndex(s));
  }

  function IndexJson(index: int): Json {
    if index >= 0 then JNum(DoubleOfInt(index)) else JNull
  }

  /** One member over an optional text. */
  function Named(name: string, t: Text): Json {
    JObj([(name, if t.Some? then JStr(t.value) else JNull)])
  }

  /** The names in the view, alphabetical, each over its own field. */
  lemma {:induction false} ViewNames(a: AtomData)
    ensures AtomView(a)
         == JArr([Named("batchId", a.batchId), Named("createdAt", Some(IntText(CreatedMs(a)))),
                  JObj([("index", IndexJson(a.index))]), Named("isotope", IsotopeText(a.isotope)),
                  JObj([("meta", JArr(MetaViews(a.meta)))]), Named("metaId", a.metaId), Named("metaType", a.metaType),
                  Named("position", a.position), Named("token", a.token), Named("value", a.value),
                  Named("version", a.version), Named("walletAddress", a.walletAddress)])
  {
    hide IntText, MetaViews, IndexJson, IsotopeText, CreatedMs;
  }

  /** Views are equal exactly when their twelve parts are. */
  lemma {:induction false} ViewParts(a: AtomData, b: AtomData)
    ensures AtomView(a) == AtomView(b) <==>
      StringOrNull(a.batchId) == StringOrNull(b.batchId) && IntText(CreatedMs(a)) == IntText(CreatedMs(b)) &&
      IndexJson(a.index) == IndexJson(b.index) &&
      StringOrNull(IsotopeText(a.isotope)) == StringOrNull(IsotopeText(b.isotope)) &&
      MetaViews(a.meta) == MetaViews(b.meta) && StringOrNull(a.metaId) == StringOrNull(b.metaId) &&
      StringOrNull(a.metaType) == StringOrNull(b.metaType) && StringOrNull(a.position) == StringOrNull(b.position) &&
      StringOrNull(a.token) == StringOrNull(b.token) && StringOrNull(a.value) == StringOrNull(b.value) &&
      StringOrNull(a.version) == StringOrNull(b.version) &&
      StringOrNull(a.walletAddress) == StringOrNull(b.walletAddress)
  {
    if AtomView(a) == AtomView(b) {
      var v, w := AtomView(a).items, AtomView(b).items;
      assert forall i :: 0 <= i < 12 ==> v[i].members[0].1 == w[i].members[0].1;
      assert v[0] == w[0] && v[1] == w[1] && v[2] == w[2] && v[3] == w[3] && v[4] == w[4] && v[5] == w[5];
      assert v[6] == w[6] && v[7] == w[7] && v[8] == w[8] && v[9] == w[9] && v[10] == w[10] && v[11] == w[11];
    }
  }

  // ---------------------------------------------------------------- through JSON

  lemma {:induction false} CanonMetasPreimage(meta: seq<Meta>, versioned: bool)
    ensures MetasPreimage(CanonMetas(meta, versioned)) == MetasPreimage(meta)
  {
    if meta != [] {
      var front, last := meta[..|meta| - 1], meta[|meta| - 1];
      CanonMetasPreimage(front, versioned);
      var c := CanonMetas(meta, versioned);
      if CanonMeta(last, versioned) == [] {
        assert c == CanonMetas(front, versioned);
      } else {
        assert c[..|c| - 1] == CanonMetas(front, versioned) && c[|c| - 1] == last;
      }
    }
  }

  /** A trip through JSON keeps the legacy preimage of every atom the reader accepts. */
  lemma {:induction false} CanonPreimage(a: AtomData, count: string)
    requires Representable(a)
    ensures AtomPreimage(Canon(a), count) == AtomPreimage(a, count)
  {
    CanonMetasPreimage(a.meta, a.version.Some?);
  }

  /** The atoms whose Version4 view the wire form can carry. */
  predicate ViewStable(a: AtomData) {
    a.position.Some? && a.walletAddress.Some? &&
    a.value != Some("") && a.batchId != Some("") && a.metaType != Some("") && a.metaId != Some("") &&
    HaveKeys(a.meta)
  }

  predicate HaveKeys(meta: seq<Meta>) {
    forall i :: 0 <= i < |meta| ==> meta[i].Meta? ==> meta[i].key.Some?
  }

  lemma {:induction false} CanonMetaViews(meta: seq<Meta>)
    ensures |MetaViews(CanonMetas(meta, true))| <= |MetaViews(meta)|
    ensures MetaViews(CanonMetas(meta, true)) == MetaViews(meta) <==> HaveKeys(meta)
    ensures |MetaViews(CanonMetas(meta, true))| == |MetaViews(meta)| ==> HaveKeys(meta)
  {
    if meta != [] {
      var front, last := meta[..|meta| - 1], meta[|meta| - 1];
      CanonMetaViews(front);
      hide StringOrNull;
      assert HaveKeys(meta) <==> HaveKeys(front) && (last.Meta? ==> last.key.Some?) by {
        assert forall i :: 0 <= i < |front| ==> front[i] == meta[i];
      }
      var c := CanonMetas(meta, true);
      if CanonMeta(last, true) == [] {
        assert c == CanonMetas(front, true);
      } else {
        assert c[..|c| - 1] == CanonMetas(front, true) && c[|c| - 1] == last;
      }
    }
  }

  /** A trip through JSON keeps the Version4 view exactly of the stable atoms. */
  lemma {:induction false} CanonView(a: AtomData)
    requires CreatedMs(a) >= 0 && a.version.Some?
    ensures AtomView(Canon(a)) == AtomView(a) <==> ViewStable(a)
  {
    hide AtomView, MetaViews, CanonMetas, IntText, IndexJson, IsotopeText;
    CanonMetaViews(a.meta);
    var c := Canon(a);
    ViewParts(c, a);
    assert CreatedMs(c) == CreatedMs(a) && c.index == a.index && c.isotope == a.isotope && c.version == a.version;
    assert c.meta == CanonMetas(a.meta, true);
    assert StringOrNull(c.position) == StringOrNull(a.position) <==> a.position.Some?;
    assert StringOrNull(c.walletAddress) == StringOrNull(a.walletAddress) <==> a.walletAddress.Some?;
    assert StringOrNull(c.value) == StringOrNull(a.value) <==> a.value != Some("");
    assert StringOrNull(c.batchId) == StringOrNull(a.batchId) <==> a.batchId != Some("");
    assert StringOrNull(c.metaType) == StringOrNull(a.metaType) <==> a.metaType != Some("");
    assert StringOrNull(c.metaId) == StringOrNull(a.metaId) <==> a.metaId != Some("");
  }

  function CanonAll(s: seq<AtomData>): (t: seq<AtomData>)
    ensures |t| == |s|
  {
    seq(|s|, i requires 0 <= i < |s| => Canon(s[i]))
  }

  lemma {:induction false} InsertCanon(s: seq<AtomData>, a: AtomData)
    ensures Insert(CanonAll(s), Canon(a)) == CanonAll(Insert(s, a))
  {
    if s != [] && s[|s| - 1].index > a.index {
      InsertCanon(s[..|s| - 1], a);
      assert CanonAll(s)[..|s| - 1] == CanonAll(s[..|s| - 1]);
    }
  }

  lemma {:induction false} SortCanon(s: seq<AtomData>)
    ensures SortByIndex(CanonAll(s)) == CanonAll(SortByIndex(s))
  {
    if s != [] {
      SortCanon(s[..|s| - 1]);
      InsertCanon(SortByIndex(s[..|s| - 1]), s[|s| - 1]);
      assert CanonAll(s)[..|s| - 1] == CanonAll(s[..|s| - 1]);
    }
  }

  /**
   The hash input survives a trip through JSON: always when some atom is unversioned, and
   for a fully versioned list when its views are stable.
   */
  lemma {:induction false} JsonKeepsHashedText(printJson: Json -> string, s: seq<AtomData>)
    requires forall i :: 0 <= i < |s| ==> Representable(s[i])
    requires AllVersioned(s) ==> forall i :: 0 <= i < |s| ==> ViewStable(s[i])
    ensures HashedText(printJson, CanonAll(s)) == HashedText(printJson, s)
  {
    hide SortByIndex, AtomPreimage, AtomView, ViewStable, HashedText, NatText;
    var t := SortByIndex(s);
    SortSorts(s);
    SortCanon(s);
    assert forall i :: 0 <= i < |t| ==> t[i] in multiset(s);
    assert forall i :: 0 <= i < |s| ==> s[i] in multiset(t);
    forall i | 0 <= i < |t|
      ensures AtomPreimage(t[i], NatText(|t|)) == AtomPreimage(CanonAll(t)[i], NatText(|t|))
      ensures AllVersioned(t) ==> AtomView(t[i]) == AtomView(CanonAll(t)[i])
    {
      CanonPreimage(t[i], NatText(|t|));
      if AllVersioned(t) {
        CanonView(t[i]);
      }
    }
    SortedSame(printJson, t, CanonAll(t));
    SortedInput(printJson, s);
    SortedInput(printJson, CanonAll(s));
  }

  /** A trip through JSON keeps the view of a fully versioned list exactly when all its atoms are stable. */
  lemma {:induction false} JsonKeepsView(s: seq<AtomData>)
    requires AllVersioned(s) && forall i :: 0 <= i < |s| ==> Representable(s[i])
    ensures AtomViews(SortByIndex(CanonAll(s))) == AtomViews(SortByIndex(s)) <==> forall i :: 0 <= i < |s| ==> ViewStable(s[i])
  {
    var t := SortByIndex(s);
    SortSorts(s);
    SortCanon(s);
    hide SortByIndex, AtomView, ViewStable, Representable;
    assert forall i :: 0 <= i < |t| ==> t[i] in multiset(s);
    assert forall i :: 0 <= i < |s| ==> s[i] in multiset(t);
    forall i | 0 <= i < |t| ensures AtomView(CanonAll(t)[i]) == AtomView(t[i]) <==> ViewStable(t[i]) {
      CreatedNotNegative(t[i]);
      CanonView(t[i]);
    }
    ViewsPointwise(CanonAll(t), t);
  }

  lemma {:induction false} CreatedNotNegative(a: AtomData)
    requires Representable(a)
    ensures CreatedMs(a) >= 0
  {
  }

  lemma {:induction false} ViewsPointwise(s: seq<AtomData>, t: seq<AtomData>)
    requires |s| == |t|
    ensures AtomViews(s) == AtomViews(t) <==> forall i :: 0 <= i < |s| ==> AtomView(s[i]) == AtomView(t[i])
  {
    hide AtomView;
    if AtomViews(s) == AtomViews(t) {
      forall i | 0 <= i < |s| ensures AtomView(s[i]) == AtomView(t[i]) {
        assert AtomViews(s)[i] == AtomViews(t)[i];
      }
    }
  }

  /**
   The hash input survives the trip exactly then, or when some atom is unversioned, provided the
   printer gives the two views different texts when they differ.
   */
  lemma {:induction false} JsonKeepsExactly(printJson: Json -> string, s: seq<AtomData>)
    requires forall i :: 0 <= i < |s| ==> Representable(s[i])
    requires var v, w := JArr(AtomViews(SortByIndex(CanonAll(s)))), JArr(AtomViews(SortByIndex(s)));
             printJson(v) == printJson(w) ==> v == w
    ensures HashedText(printJson, CanonAll(s)) == HashedText(printJson, s) <==>
              (AllVersioned(s) ==> forall i :: 0 <= i < |s| ==> ViewStable(s[i]))
  {
    hide SortByIndex, AtomViews, ViewStable, Representable, LegacyPreimage;
    if AllVersioned(s) {
      JsonKeepsView(s);
      VersionedText(printJson, s);
      VersionedText(printJson, CanonAll(s));
    } else {
      JsonKeepsHashedText(printJson, s);
    }
  }

  lemma {:induction false} VersionedText(printJson: Json -> string, s: seq<AtomData>)
    requires AllVersioned(s)
    ensures HashedText(printJson, s) == printJson(JArr(AtomViews(SortByIndex(s))))
  {
    hide SortByIndex, AtomView, LegacyPreimage;
    var t := SortByIndex(s);
    SortSorts(s);
    SortOfSorted(t);
    forall i | 0 <= i < |t| ensures t[i].version.Some? {
      assert t[i] in multiset(s);
    }
  }

  // ---------------------------------------------------------------- what the view determines

  /** The twelve hashed fields. */
  predicate SameTwelve(a: AtomData, b: AtomData) {
    a.batchId == b.batchId && CreatedMs(a) == CreatedMs(b) && a.index == b.index && a.isotope == b.isotope &&
    a.meta == b.meta && a.metaId == b.metaId && a.metaType == b.metaType && a.position == b.position &&
    a.token == b.token && a.value == b.value && a.version == b.version && a.walletAddress == b.walletAddress
  }

  predicate NoNullMeta(meta: seq<Meta>) {
    forall i :: 0 <= i < |meta| ==> meta[i].Meta?
  }

  lemma {:induction false} MetaViewsInjective(m: seq<Meta>, n: seq<Meta>)
    requires NoNullMeta(m) && NoNullMeta(n) && MetaViews(m) == MetaViews(n)
    ensures m == n
  {
    if m == [] || n == [] {
      assert m == [] && n == [];
    } else {
      var mf, nf := m[..|m| - 1], n[..|n| - 1];
      var x, y := m[|m| - 1], n[|n| - 1];
      var v := MetaViews(m);
      assert v[..|v| - 1] == MetaViews(mf) == MetaViews(nf);
      assert v[|v| - 1] == MetaView(x)[0] == MetaView(y)[0];
      MetaViewsInjective(mf, nf);
      assert MetaView(x)[0].items[0].members[0].1 == MetaView(y)[0].items[0].members[0].1;
      assert MetaView(x)[0].items[1].members[0].1 == MetaView(y)[0].items[1].members[0].1;
      assert m == mf + [x] && n == nf + [y];
    }
  }

  /** Equal views are views of atoms that agree on all twelve hashed fields. */
  lemma {:induction false} ViewInjective(a: AtomData, b: AtomData)
    requires a.index >= 0 && b.index >= 0 && NoNullMeta(a.meta) && NoNullMeta(b.meta)
    requires AtomView(a) == AtomView(b)
    ensures SameTwelve(a, b)
  {
    hide AtomView, MetaViews, IntText, CreatedMs;
    ViewParts(a, b);
    IntTextInjective(CreatedMs(a), CreatedMs(b));
    DoubleOfIntReads(a.index);
    DoubleOfIntReads(b.index);
    IsotopeRoundTrip(a.isotope, OrEmpty(IsotopeText(a.isotope)));
    IsotopeRoundTrip(b.isotope, OrEmpty(IsotopeText(b.isotope)));
    MetaViewsInjective(a.meta, b.meta);
  }

  lemma {:induction false} ViewsDetermineAtom(s: seq<AtomData>, t: seq<AtomData>, i: nat)
    requires forall i :: 0 <= i < |s| ==> s[i].index >= 0 && NoNullMeta(s[i].meta)
    requires forall i :: 0 <= i < |t| ==> t[i].index >= 0 && NoNullMeta(t[i].meta)
    requires AtomViews(SortByIndex(s)) == AtomViews(SortByIndex(t))
    requires i < |SortByIndex(s)|
    ensures i < |SortByIndex(t)| && SameTwelve(SortByIndex(s)[i], SortByIndex(t)[i])
  {
    var x, y := SortByIndex(s), SortByIndex(t);
    SortSorts(s);
    SortSorts(t);
    assert |AtomViews(x)| == |x| && |AtomViews(y)| == |y|;
    assert x[i] in multiset(s) && y[i] in multiset(t);
    assert AtomViews(x)[i] == AtomViews(y)[i];
    ViewInjective(x[i], y[i]);
  }

  /** Molecules with one view have index-sorted atoms that agree on every hashed field. */
  lemma {:induction false} ViewsDetermineAtoms(s: seq<AtomData>, t: seq<AtomData>)
    requires forall i :: 0 <= i < |s| ==> s[i].index >= 0 && NoNullMeta(s[i].meta)
    requires forall i :: 0 <= i < |t| ==> t[i].index >= 0 && NoNullMeta(t[i].meta)
    requires AtomViews(SortByIndex(s)) == AtomViews(SortByIndex(t))
    ensures |s| == |t|
    ensures forall i :: 0 <= i < |SortByIndex(s)| ==>
              i < |SortByIndex(t)| && SameTwelve(SortByIndex(s)[i], SortByIndex(t)[i])
  {
    SortSorts(s);
    SortSorts(t);
    assert |AtomViews(SortByIndex(s))| == |AtomViews(SortByIndex(t))|;
    forall i | 0 <= i < |SortByIndex(s)|
      ensures i < |SortByIndex(t)| && SameTwelve(SortByIndex(s)[i], SortByIndex(t)[i])
    {
      ViewsDetermineAtom(s, t, i);
    }
  }

  /** Inserting a where everything before is not greater and everything after is. */
  lemma {:induction false} InsertAt(s: seq<AtomData>, a: AtomData, j: nat)
    requires j <= |s| && (j > 0 ==> s[j - 1].index <= a.index)
    requires forall k :: j <= k < |s| ==> s[k].index > a.index
    ensures Insert(s, a) == s[..j] + [a] + s[j..]
    decreases |s|
  {
    if j == |s| {
      assert s[..j] == s && s[j..] == [];
    } else {
      var front, last := s[..|s| - 1], s[|s| - 1];
      InsertAt(front, a, j);
      assert front[..j] == s[..j] && s[j..] == front[j..] + [last];
    }
  }
}
