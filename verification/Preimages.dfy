/**
 What the legacy hash text commits to (src/molecule.c:645-819): a change of any one hashed
 field of any atom of an unversioned list changes the text, and the fields come in a fixed
 order.
 */
module Preimages {
  import opened Basics
  import opened Decimal
  import opened Atoms
  import opened Hashing

  function Joined(texts: seq<string>): string {
    if texts == [] then "" else Joined(texts[..|texts| - 1]) + texts[|texts| - 1]
  }

  /** A joined text changes with any one of its parts. */
  lemma {:induction false} JoinedCommits(texts: seq<string>, i: nat, x: string)
    requires i < |texts|
    ensures Joined(texts[i := x]) == Joined(texts) <==> x == texts[i]
  {
    var n := |texts| - 1;
    var changed, last := texts[i := x], texts[n];
    if i == n {
      assert changed[..n] == texts[..n];
      FrontCommits(Joined(texts[..n]), x, last);
    } else {
      JoinedCommits(texts[..n], i, x);
      assert changed[..n] == texts[..n][i := x];
      BackCommits(Joined(changed[..n]), Joined(texts[..n]), last);
    }
  }

  lemma {:induction false} FrontCommits(front: string, x: string, y: string)
    ensures front + x == front + y <==> x == y
  {
    if front + x == front + y {
      assert x == (front + x)[|front|..] && y == (front + y)[|front|..];
    }
  }

  lemma {:induction false} BackCommits(x: string, y: string, back: string)
    ensures x + back == y + back <==> x == y
  {
    if x + back == y + back {
      assert |x + back| == |x| + |back| && |y + back| == |y| + |back|;
      assert x == (x + back)[..|x|] && y == (y + back)[..|y|];
    }
  }

  // ---------------------------------------------------------------- one atom

  /** What update_sponge_with_atom absorbs, call by call, the metas as one text. */
  function Absorbed(a: AtomData, count: string, metas: string): (texts: seq<string>)
    ensures |texts| == 11
  {
    [count, OrEmpty(a.position), OrEmpty(a.walletAddress), OrEmpty(IsotopeText(a.isotope)), OrEmpty(a.token),
     OrEmpty(a.value), OrEmpty(a.batchId), OrEmpty(a.metaType), OrEmpty(a.metaId), metas, IntText(CreatedMs(a))]
  }

  lemma {:induction false} PreimageJoined(a: AtomData, count: string)
    ensures AtomPreimage(a, count) == Joined(Absorbed(a, count, MetasPreimage(a.meta)))
  {
    hide Joined, MetasPreimage, IntText;
    var t := Absorbed(a, count, MetasPreimage(a.meta));
    JoinedNone();
    JoinedTo(t, 0);
    JoinedTo(t, 1);
    JoinedTo(t, 2);
    JoinedTo(t, 3);
    JoinedTo(t, 4);
    JoinedTo(t, 5);
    JoinedTo(t, 6);
    JoinedTo(t, 7);
    JoinedTo(t, 8);
    JoinedTo(t, 9);
    JoinedTo(t, 10);
    assert t[..11] == t && t[..0] == [] && "" + count == count;
  }

  lemma {:induction false} JoinedNone()
    ensures Joined([]) == ""
  {
  }

  lemma {:induction false} JoinedTo(texts: seq<string>, i: nat)
    requires i < |texts|
    ensures Joined(texts[..i + 1]) == Joined(texts[..i]) + texts[i]
  {
    assert texts[..i + 1][..i] == texts[..i];
  }

  lemma {:induction false} MetaCommits(meta: seq<Meta>, i: nat, m: Meta)
    requires i < |meta|
    ensures MetasPreimage(meta[i := m]) == MetasPreimage(meta) <==> MetaPreimage(m) == MetaPreimage(meta[i])
  {
    hide MetaPreimage;
    var n := |meta| - 1;
    var changed, last := meta[i := m], meta[n];
    if i == n {
      assert changed[..n] == meta[..n];
      FrontCommits(MetasPreimage(meta[..n]), MetaPreimage(m), MetaPreimage(last));
    } else {
      MetaCommits(meta[..n], i, m);
      assert changed[..n] == meta[..n][i := m];
      BackCommits(MetasPreimage(changed[..n]), MetasPreimage(meta[..n]), MetaPreimage(last));
    }
  }

  /** A meta of key and value, one of them changed. */
  predicate KeyOrValue(m: Meta, changed: Meta) {
    m.Meta? && changed.Meta? && m.key.Some? && m.value.Some? && changed.key.Some? && changed.value.Some? &&
    (m.key == changed.key || m.value == changed.value)
  }

  ghost predicate OneMeta(meta: seq<Meta>, changed: seq<Meta>) {
    exists i: nat :: i < |meta| && |changed| == |meta| && KeyOrValue(meta[i], changed[i]) && changed == meta[i := changed[i]]
  }

  lemma {:induction false} OneMetaCommits(meta: seq<Meta>, changed: seq<Meta>)
    requires OneMeta(meta, changed)
    ensures MetasPreimage(changed) == MetasPreimage(meta) <==> changed == meta
  {
    var i: nat :| i < |meta| && |changed| == |meta| && KeyOrValue(meta[i], changed[i]) && changed == meta[i := changed[i]];
    var m, c := meta[i], changed[i];
    MetaCommits(meta, i, c);
    FrontCommits(m.key.value, m.value.value, c.value.value);
    BackCommits(m.key.value, c.key.value, m.value.value);
    assert c == m ==> changed == meta;
  }

  /** At most one of the hashed fields is another. */
  ghost predicate OneField(a: AtomData, b: AtomData) {
    b == a.(position := b.position) || b == a.(walletAddress := b.walletAddress) || b == a.(isotope := b.isotope) ||
    b == a.(token := b.token) || b == a.(value := b.value) || b == a.(batchId := b.batchId) ||
    b == a.(metaType := b.metaType) || b == a.(metaId := b.metaId) ||
    b == a.(createdAt := b.createdAt, createdAtMs := b.createdAtMs) ||
    (b == a.(meta := b.meta) && OneMeta(a.meta, b.meta))
  }

  /** The hashed fields agree, a NULL text being as good as an empty one. */
  predicate SameHashed(a: AtomData, b: AtomData) {
    OrEmpty(a.position) == OrEmpty(b.position) && OrEmpty(a.walletAddress) == OrEmpty(b.walletAddress) &&
    a.isotope == b.isotope && OrEmpty(a.token) == OrEmpty(b.token) && OrEmpty(a.value) == OrEmpty(b.value) &&
    OrEmpty(a.batchId) == OrEmpty(b.batchId) && OrEmpty(a.metaType) == OrEmpty(b.metaType) &&
    OrEmpty(a.metaId) == OrEmpty(b.metaId) && a.meta == b.meta && CreatedMs(a) == CreatedMs(b)
  }

  lemma {:induction false} IsotopesDiffer(x: Isotope, y: Isotope)
    ensures OrEmpty(IsotopeText(x)) == OrEmpty(IsotopeText(y)) <==> x == y
  {
    if x != UNKNOWN && y != UNKNOWN {
      IsotopeRoundTrip(x, IsotopeText(x).value);
      IsotopeRoundTrip(y, IsotopeText(y).value);
    }
  }

  lemma {:induction false} TimesDiffer(x: int, y: int)
    ensures IntText(x) == IntText(y) <==> x == y
  {
    if IntText(x) == IntText(y) {
      IntTextInjective(x, y);
    }
  }

  /** The texts absorbed for two atoms differ at place i at most, and there exactly when the atoms do. */
  ghost predicate DifferAt(a: AtomData, b: AtomData, count: string, i: nat)
    requires i < 11
  {
    var s, t := Absorbed(a, count, MetasPreimage(a.meta)), Absorbed(b, count, MetasPreimage(b.meta));
    t == s[i := t[i]] && (t[i] == s[i] <==> SameHashed(a, b))
  }

  lemma {:induction false} TextPart(a: AtomData, b: AtomData, count: string) returns (i: nat)
    requires b == a.(position := b.position) || b == a.(walletAddress := b.walletAddress) ||
             b == a.(token := b.token) || b == a.(value := b.value)
    ensures i < 11 && DifferAt(a, b, count, i)
  {
    hide MetasPreimage, IntText, IsotopeText, CreatedMs;
    TimeFields(a, b);
    i := if b == a.(position := b.position) then 1 else if b == a.(walletAddress := b.walletAddress) then 2
         else if b == a.(token := b.token) then 4 else 5;
  }

  lemma {:induction false} RefPart(a: AtomData, b: AtomData, count: string) returns (i: nat)
    requires b == a.(batchId := b.batchId) || b == a.(metaType := b.metaType) || b == a.(metaId := b.metaId)
    ensures i < 11 && DifferAt(a, b, count, i)
  {
    hide MetasPreimage, IntText, IsotopeText, CreatedMs;
    TimeFields(a, b);
    i := if b == a.(batchId := b.batchId) then 6 else if b == a.(metaType := b.metaType) then 7 else 8;
  }

  lemma {:induction false} IsotopePart(a: AtomData, b: AtomData, count: string)
    requires b == a.(isotope := b.isotope)
    ensures DifferAt(a, b, count, 3)
  {
    IsotopesDiffer(a.isotope, b.isotope);
    hide MetasPreimage, IntText, IsotopeText, CreatedMs;
    TimeFields(a, b);
    assert a.isotope == b.isotope ==> a == b;
  }

  lemma {:induction false} MetaPart(a: AtomData, b: AtomData, count: string)
    requires b == a.(meta := b.meta) && OneMeta(a.meta, b.meta)
    ensures DifferAt(a, b, count, 9)
  {
    OneMetaCommits(a.meta, b.meta);
    hide MetasPreimage, IntText, IsotopeText, CreatedMs, OneMeta;
    TimeFields(a, b);
  }

  lemma {:induction false} TimePart(a: AtomData, b: AtomData, count: string)
    requires b == a.(createdAt := b.createdAt, createdAtMs := b.createdAtMs)
    ensures DifferAt(a, b, count, 10)
  {
    TimesDiffer(CreatedMs(a), CreatedMs(b));
    hide MetasPreimage, IntText, IsotopeText, CreatedMs;
  }

  /** The one text absorbed that may differ. */
  lemma {:induction false} OnePart(a: AtomData, b: AtomData, count: string) returns (i: nat)
    requires OneField(a, b)
    ensures i < 11 && DifferAt(a, b, count, i)
  {
    hide DifferAt, OneMeta;
    if b == a.(position := b.position) || b == a.(walletAddress := b.walletAddress) || b == a.(token := b.token) ||
       b == a.(value := b.value) {
      i := TextPart(a, b, count);
    } else if b == a.(batchId := b.batchId) || b == a.(metaType := b.metaType) || b == a.(metaId := b.metaId) {
      i := RefPart(a, b, count);
    } else if b == a.(isotope := b.isotope) {
      i := 3;
      IsotopePart(a, b, count);
    } else if b == a.(createdAt := b.createdAt, createdAtMs := b.createdAtMs) {
      i := 10;
      TimePart(a, b, count);
    } else {
      i := 9;
      MetaPart(a, b, count);
    }
  }

  lemma {:induction false} TimeFields(a: AtomData, b: AtomData)
    ensures a.createdAt == b.createdAt && a.createdAtMs == b.createdAtMs ==> CreatedMs(a) == CreatedMs(b)
  {
  }

  /** Where at most one hashed field differs, the texts of two atoms are equal exactly when it does not. */
  lemma {:induction false} AtomCommits(a: AtomData, b: AtomData, count: string)
    requires OneField(a, b)
    ensures AtomPreimage(b, count) == AtomPreimage(a, count) <==> SameHashed(a, b)
  {
    PreimageJoined(a, count);
    PreimageJoined(b, count);
    hide AtomPreimage, Joined, OneField, SameHashed, Absorbed;
    var s, t := Absorbed(a, count, MetasPreimage(a.meta)), Absorbed(b, count, MetasPreimage(b.meta));
    var i := OnePart(a, b, count);
    JoinedCommits(s, i, t[i]);
  }

  // ---------------------------------------------------------------- a list

  /** Another atom under the same index takes the same place. */
  lemma {:induction false} InsertOther(s: seq<AtomData>, a: AtomData, b: AtomData) returns (k: nat)
    requires a.index == b.index
    ensures k <= |s| && Insert(s, a)[k] == a && Insert(s, b) == Insert(s, a)[k := b]
  {
    if s == [] || s[|s| - 1].index <= a.index {
      k := |s|;
    } else {
      k := InsertOther(s[..|s| - 1], a, b);
    }
  }

  lemma {:induction false} InsertAmong(s: seq<AtomData>, i: nat, b: AtomData, x: AtomData) returns (k: nat)
    requires i < |s| && s[i].index == b.index
    ensures k <= |s| && Insert(s, x)[k] == s[i] && Insert(s[i := b], x) == Insert(s, x)[k := b]
  {
    var n := |s| - 1;
    var t := s[i := b];
    if s[n].index <= x.index {
      k := i;
      assert t + [x] == (s + [x])[i := b];
    } else if i == n {
      assert t[..n] == s[..n];
      k := |s|;
    } else {
      assert t[..n] == s[..n][i := b];
      k := InsertAmong(s[..n], i, b, x);
    }
  }

  /** And so in the sorted list. */
  lemma {:induction false} SortOther(s: seq<AtomData>, i: nat, b: AtomData) returns (k: nat)
    requires i < |s| && s[i].index == b.index
    ensures k < |s| && SortByIndex(s)[k] == s[i] && SortByIndex(s[i := b]) == SortByIndex(s)[k := b]
  {
    hide Insert;
    var n := |s| - 1;
    var t := s[i := b];
    if i == n {
      assert t[..n] == s[..n];
      k := InsertOther(SortByIndex(s[..n]), s[n], b);
    } else {
      assert t[..n] == s[..n][i := b];
      var j := SortOther(s[..n], i, b);
      k := InsertAmong(SortByIndex(s[..n]), j, b, s[n]);
    }
  }

  lemma {:induction false} LegacyCommits(s: seq<AtomData>, k: nat, b: AtomData, count: string)
    requires k < |s|
    ensures LegacyPreimage(s[k := b], count) == LegacyPreimage(s, count)
       <==> AtomPreimage(b, count) == AtomPreimage(s[k], count)
  {
    hide AtomPreimage;
    var n := |s| - 1;
    var changed, last := s[k := b], s[n];
    if k == n {
      assert changed[..n] == s[..n];
      FrontCommits(LegacyPreimage(s[..n], count), AtomPreimage(b, count), AtomPreimage(last, count));
    } else {
      LegacyCommits(s[..n], k, b, count);
      assert changed[..n] == s[..n][k := b];
      BackCommits(LegacyPreimage(changed[..n], count), LegacyPreimage(s[..n], count), AtomPreimage(last, count));
    }
  }

  /**
   The hash input of an unversioned list commits to every hashed field of every atom: with one of
   them changed in one atom the input is another, and only then.
   */
  lemma {:induction false} ListCommits(printJson: Json -> string, s: seq<AtomData>, i: nat, b: AtomData)
    requires i < |s| && s[i].index == b.index && OneField(s[i], b)
    requires !AllVersioned(s) && !AllVersioned(s[i := b])
    ensures HashedText(printJson, s[i := b]) == HashedText(printJson, s) <==> SameHashed(s[i], b)
  {
    var count := NatText(|s|);
    UnversionedText(printJson, s);
    UnversionedText(printJson, s[i := b]);
    var k := SortOther(s, i, b);
    LegacyCommits(SortByIndex(s), k, b, count);
    AtomCommits(s[i], b, count);
  }

  lemma {:induction false} UnversionedText(printJson: Json -> string, s: seq<AtomData>)
    requires !AllVersioned(s)
    ensures HashedText(printJson, s) == LegacyPreimage(SortByIndex(s), NatText(|s|))
  {
    SortSorts(s);
    var i :| 0 <= i < |s| && s[i].version.None?;
    assert s[i] in multiset(SortByIndex(s));
  }

  /** The texts of the atoms, under one count. */
  function TextsOf(atoms: seq<AtomData>, count: string): (texts: seq<string>)
    ensures |texts| == |atoms|
  {
    seq(|atoms|, i requires 0 <= i < |atoms| => AtomPreimage(atoms[i], count))
  }

  lemma {:induction false} LegacyJoined(atoms: seq<AtomData>, count: string)
    ensures LegacyPreimage(atoms, count) == Joined(TextsOf(atoms, count))
  {
    hide AtomPreimage;
    if atoms != [] {
      var n := |atoms| - 1;
      LegacyJoined(atoms[..n], count);
      assert TextsOf(atoms, count)[..n] == TextsOf(atoms[..n], count);
    }
  }

  /** An unversioned list: the atoms in index order, each with the decimal number of atoms in front. */
  lemma {:induction false} ListOrder(printJson: Json -> string, s: seq<AtomData>)
    requires !AllVersioned(s)
    ensures var sorted := SortByIndex(s);
            HashedText(printJson, s) == Joined(TextsOf(sorted, NatText(|s|))) &&
            forall i, j :: 0 <= i < j < |sorted| ==> sorted[i].index <= sorted[j].index
  {
    UnversionedText(printJson, s);
    LegacyJoined(SortByIndex(s), NatText(|s|));
    SortSorts(s);
  }

  // ---------------------------------------------------------------- the order

  /** An atom with no text but its isotope, and a time. */
  function Bare(isotope: Isotope, ms: int): AtomData {
    AtomData(None, None, isotope, None, None, None, None, None, [], None, 0, None, 0, ms)
  }

  /** The text fields, counted in the order they are hashed; the isotope comes before field 2. */
  function With(a: AtomData, field: nat, text: string): AtomData
    requires field < 7
  {
    match field
    case 0 => a.(position := Some(text))
    case 1 => a.(walletAddress := Some(text))
    case 2 => a.(token := Some(text))
    case 3 => a.(value := Some(text))
    case 4 => a.(batchId := Some(text))
    case 5 => a.(metaType := Some(text))
    case _ => a.(metaId := Some(text))
  }

  /** The two texts and the isotope, in hash order. */
  function Ordered(i: nat, x: string, j: nat, y: string, name: string): string {
    if j < 2 then x + y + name else if i < 2 then x + name + y else name + x + y
  }

  /** One more field: the one text, the other, or none. */
  lemma {:induction false} NextField(front: string, k: nat, i: nat, x: string, j: nat, y: string, field: Text)
    requires field == if k == j then Some(y) else if k == i then Some(x) else None
    ensures front + OrEmpty(field) == if k == j then front + y else if k == i then front + x else front
  {
    assert front + "" == front;
  }

  lemma {:induction false} TwoFields(a: AtomData, i: nat, x: string, j: nat, y: string, name: string, count: string)
    requires i < j < 7 && a.meta == [] && OrEmpty(IsotopeText(a.isotope)) == name
    requires a == With(With(Bare(a.isotope, a.createdAtMs), i, x), j, y)
    ensures FieldsPreimage(a, count) == count + Ordered(i, x, j, y, name)
  {
    hide IsotopeText;
    var p1 := count + OrEmpty(a.position);
    NextField(count, 0, i, x, j, y, a.position);
    var p2 := p1 + OrEmpty(a.walletAddress);
    NextField(p1, 1, i, x, j, y, a.walletAddress);
    var p3 := p2 + name;
    var p4 := p3 + OrEmpty(a.token);
    NextField(p3, 2, i, x, j, y, a.token);
    var p5 := p4 + OrEmpty(a.value);
    NextField(p4, 3, i, x, j, y, a.value);
    var p6 := p5 + OrEmpty(a.batchId);
    NextField(p5, 4, i, x, j, y, a.batchId);
    var p7 := p6 + OrEmpty(a.metaType);
    NextField(p6, 5, i, x, j, y, a.metaType);
    var p8 := p7 + OrEmpty(a.metaId);
    NextField(p7, 6, i, x, j, y, a.metaId);
    ThreeTexts(count, x, y, name);
    ThreeTexts(count, x, name, y);
    ThreeTexts(count, name, x, y);
  }

  lemma {:induction false} ThreeTexts(front: string, x: string, y: string, z: string)
    ensures front + x + y + z == front + (x + y + z)
  {
  }

  /** Any two text fields are hashed one behind the other, the isotope in its place, then the metas, then the time. */
  lemma {:induction false} FieldOrder(isotope: Isotope, ms: int, i: nat, x: string, j: nat, y: string, meta: seq<Meta>,
                                      count: string)
    requires i < j < 7 && ms > 0
    ensures AtomPreimage(With(With(Bare(isotope, ms), i, x), j, y).(meta := meta), count)
         == count + Ordered(i, x, j, y, OrEmpty(IsotopeText(isotope))) + MetasPreimage(meta) + IntText(ms)
  {
    hide MetasPreimage, IntText, IsotopeText;
    var a := With(With(Bare(isotope, ms), i, x), j, y);
    var name := OrEmpty(IsotopeText(isotope));
    assert FieldsPreimage(a, count) == count + Ordered(i, x, j, y, name) by {
      TwoFields(a, i, x, j, y, name, count);
    }
  }

  /** Metas of key and value are hashed in order, the key before the value; others are not. */
  lemma {:induction false} MetaOrder(meta: seq<Meta>, key: Text, value: Text)
    ensures MetasPreimage([]) == "" && MetasPreimage(meta + [NullMeta]) == MetasPreimage(meta)
    ensures MetasPreimage(meta + [Meta(key, value)])
         == if key.Some? && value.Some? then MetasPreimage(meta) + key.value + value.value else MetasPreimage(meta)
  {
    assert (meta + [NullMeta])[..|meta|] == meta && (meta + [Meta(key, value)])[..|meta|] == meta;
    assert MetasPreimage(meta) + "" == MetasPreimage(meta);
    if key.Some? && value.Some? {
      Associate(MetasPreimage(meta), key.value, value.value);
    }
  }
}
