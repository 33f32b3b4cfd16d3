/**
 Atoms to JSON and back (src/atom.c:420-596, 603-780) as functions on values. The main
 result gives, for every atom, whether its own JSON is read back and exactly what the
 reader returns.
 */
module AtomJson {
  import opened Basics
  import opened Digits
  import opened Decimal
  import opened NumberPrinter
  import opened Atoms

  const NUMBER_TEXT_SIZE: nat := 32
  const MAX_META_KEY: nat := 256
  const MAX_META_VALUE: nat := 4096
  const POSITION_LENGTH: nat := 64

  // ---------------------------------------------------------------- writing

  function StringOrNull(t: Text): Json {
    if t.Some? then JStr(t.value) else JNull
  }

  /** A NULL meta, or one without a key, is not written. */
  function MetaItem(m: Meta): seq<Json> {
    if m.NullMeta? || m.key.None? then []
    else [JObj([("key", JStr(m.key.value)), ("value", StringOrNull(m.value))])]
  }

  function MetaItems(meta: seq<Meta>): seq<Json> {
    if meta == [] then [] else MetaItems(meta[..|meta| - 1]) + MetaItem(meta[|meta| - 1])
  }

  /** The members an atom object can have, in order; an absent one is not written. */
  function AtomFields(a: AtomData): seq<(string, Option<Json>)> {
    [("position", Written(a.position)),
     ("walletAddress", Written(a.walletAddress)),
     ("isotope", Written(IsotopeText(a.isotope))),
     ("token", Written(a.token)),
     ("value", Some(StringOrNull(NonEmpty(a.value)))),
     ("batchId", Some(StringOrNull(NonEmpty(a.batchId)))),
     ("metaType", Some(StringOrNull(NonEmpty(a.metaType)))),
     ("metaId", Some(StringOrNull(NonEmpty(a.metaId)))),
     ("meta", Some(JArr(MetaItems(a.meta)))),
     ("createdAt", Some(JStr(IntText(CreatedMs(a))))),
     ("index", Some(JNum(DoubleOfInt(a.index)))),
     ("version", Written(a.version)),
     ("otsFragment", Written(a.otsFragment))]
  }

  function Written(t: Text): Option<Json> {
    if t.Some? then Some(JStr(t.value)) else None
  }

  function Present(fields: seq<(string, Option<Json>)>): seq<(string, Json)> {
    if fields == [] then []
    else
      var front, last := Present(fields[..|fields| - 1]), fields[|fields| - 1];
      if last.1.Some? then front + [(last.0, last.1.value)] else front
  }

  /** knishio_atom_to_json. */
  function AtomToJson(a: AtomData): Json {
    JObj(Present(AtomFields(a)))
  }

  ghost predicate DistinctNames(fields: seq<(string, Option<Json>)>) {
    forall i, j :: 0 <= i < j < |fields| ==> fields[i].0 != fields[j].0
  }

  lemma {:induction false} LookupAbsent(fields: seq<(string, Option<Json>)>, key: string)
    requires forall i :: 0 <= i < |fields| ==> fields[i].0 != key
    ensures Lookup(Present(fields), key) == None
  {
    if fields != [] {
      var front, last := fields[..|fields| - 1], fields[|fields| - 1];
      LookupAbsent(front, key);
      LookupSnoc(Present(front), last.0, if last.1.Some? then last.1.value else JNull, key);
    }
  }

  lemma {:induction false} LookupSnoc(members: seq<(string, Json)>, name: string, value: Json, key: string)
    ensures Lookup(members + [(name, value)], key)
         == if Lookup(members, key).Some? then Lookup(members, key) else if name == key then Some(value) else None
  {
    if members == [] {
      assert Lookup([], key) == None;
      assert (members + [(name, value)])[1..] == [];
    } else {
      LookupSnoc(members[1..], name, value, key);
      assert (members + [(name, value)])[1..] == members[1..] + [(name, value)];
    }
  }

  /** Looking up a written object gives the field. */
  lemma {:induction false} LookupPresent(fields: seq<(string, Option<Json>)>, i: nat)
    requires DistinctNames(fields) && i < |fields|
    ensures Lookup(Present(fields), fields[i].0) == fields[i].1
  {
    var n := |fields| - 1;
    var front, last := fields[..n], fields[n];
    if i == n {
      LookupAbsent(front, last.0);
    } else {
      LookupPresent(front, i);
    }
    LookupSnoc(Present(front), last.0, if last.1.Some? then last.1.value else JNull, fields[i].0);
  }

  lemma {:induction false} AtomNamesDistinct(a: AtomData)
    ensures DistinctNames(AtomFields(a))
  {
  }

  // ---------------------------------------------------------------- reading

  /** knishio_cjson_optional_string: absent or null is NULL, any other type is malformed. */
  function OptionalString(json: Json, key: string): Result<Text> {
    match Member(json, key)
    case None => Success(None)
    case Some(JNull) => Success(None)
    case Some(JStr(text)) => Success(Some(text))
    case Some(_) => Failure(InvalidJson)
  }

  /** A version is a string, or a number read as its decimal text. */
  function VersionOf(json: Json): Result<Text> {
    match Member(json, "version")
    case Some(JNum(v)) =>
      if !v.NotFinite? && |Layout(NumberOf(v))| < NUMBER_TEXT_SIZE then Success(Some(Layout(NumberOf(v))))
      else Failure(InvalidJson)
    case _ => OptionalString(json, "version")
  }

  /** The index: a whole number in 0..INT_MAX. */
  function IndexValue(json: Json): Option<int> {
    match Member(json, "index")
    case Some(JNum(v)) =>
      if v.NotFinite? then None
      else
        var i := IntegerOf(NumberOf(v));
        if i.Some? && 0 <= i.value <= INT_MAX then i else None
    case _ => None
  }

  /** One entry of the meta array: the metas it adds. */
  function ReadMeta(entry: Json, versioned: bool): Result<seq<Meta>> {
    if !entry.JObj? then Failure(InvalidJson)
    else
      var key, value := Member(entry, "key"), Member(entry, "value");
      if key.None? || !key.value.JStr? then Failure(InvalidJson)
      else
        var isNull := value.None? || value.value.JNull?;
        if isNull && !versioned then Success([])
        else if !isNull && !value.value.JStr? then Failure(InvalidJson)
        else if |key.value.text| > MAX_META_KEY || (!isNull && |value.value.text| > MAX_META_VALUE) then
          Failure(InvalidJson)
        else Success([Meta(Some(key.value.text), if isNull then None else Some(value.value.text))])
  }

  function ReadMetas(entries: seq<Json>, versioned: bool): Result<seq<Meta>> {
    if entries == [] then Success([])
    else
      match ReadMetas(entries[..|entries| - 1], versioned)
      case Failure(e) => Failure(e)
      case Success(front) =>
        match ReadMeta(entries[|entries| - 1], versioned)
        case Failure(e) => Failure(e)
        case Success(metas) => Success(front + metas)
  }

  predicate LengthOk(s: string) {
    s == "" || |s| == POSITION_LENGTH
  }

  /** The optional strings of an atom object, version included. */
  datatype Strings = Strings(position: Text, walletAddress: Text, value: Text, batchId: Text, metaType: Text,
                             metaId: Text, otsFragment: Text, version: Text)

  function ReadStrings(json: Json): Result<Strings> {
    var position, walletAddress := OptionalString(json, "position"), OptionalString(json, "walletAddress");
    var value, batchId := OptionalString(json, "value"), OptionalString(json, "batchId");
    var metaType, metaId := OptionalString(json, "metaType"), OptionalString(json, "metaId");
    var otsFragment, version := OptionalString(json, "otsFragment"), VersionOf(json);
    if position.Failure? || walletAddress.Failure? || value.Failure? || batchId.Failure? ||
       metaType.Failure? || metaId.Failure? || otsFragment.Failure? || version.Failure? then Failure(InvalidJson)
    else Success(Strings(position.value, walletAddress.value, value.value, batchId.value, metaType.value, metaId.value,
                         otsFragment.value, version.value))
  }

  /** The timestamp and the index. */
  function ReadNumbers(json: Json): Option<(int, int)> {
    var createdAt, index := Member(json, "createdAt"), IndexValue(json);
    if createdAt.None? || !createdAt.value.JStr? || Millis(createdAt.value.text).None? || index.None? then None
    else Some((Millis(createdAt.value.text).value, index.value))
  }

  /** Everything but the metas: the checks in order, then the fields. */
  function ReadScalars(json: Json): Result<AtomData> {
    var isotope, token, meta := Member(json, "isotope"), Member(json, "token"), Member(json, "meta");
    var strings, numbers := ReadStrings(json), ReadNumbers(json);
    if isotope.None? || !isotope.value.JStr? || token.None? || !token.value.JStr? then Failure(InvalidJson)
    else if IsotopeOf(isotope.value.text) == UNKNOWN then Failure(InvalidJson)
    else if strings.Failure? || numbers.None? then Failure(InvalidJson)
    else if meta.Some? && !meta.value.JNull? && !meta.value.JArr? then Failure(InvalidJson)
    else
      var s, n := strings.value, numbers.value;
      if !LengthOk(OrEmpty(s.position)) || !LengthOk(OrEmpty(s.walletAddress)) then Failure(InvalidJson)
      else
        Success(AtomData(Some(OrEmpty(s.position)), Some(OrEmpty(s.walletAddress)), IsotopeOf(isotope.value.text),
                         Some(token.value.text), s.value, s.batchId, s.metaType, s.metaId, [], s.otsFragment,
                         n.1, s.version, n.0 / 1000, n.0))
  }

  function MetaEntries(json: Json): seq<Json> {
    var meta := Member(json, "meta");
    if meta.Some? && meta.value.JArr? then meta.value.items else []
  }

  /** knishio_atom_from_cjson. */
  function AtomFromJson(json: Json): Result<AtomData> {
    match ReadScalars(json)
    case Failure(e) => Failure(e)
    case Success(a) =>
      match ReadMetas(MetaEntries(json), a.version.Some?)
      case Failure(e) => Failure(e)
      case Success(metas) => Success(a.(meta := metas))
  }

  // ---------------------------------------------------------------- the round trip

  /** A meta the reader turns away. */
  predicate MetaFits(m: Meta, versioned: bool) {
    m.Meta? && m.key.Some? && (versioned || m.value.Some?) ==>
      |m.key.value| <= MAX_META_KEY && |OrEmpty(m.value)| <= MAX_META_VALUE
  }

  predicate MetasFit(meta: seq<Meta>, versioned: bool) {
    forall i :: 0 <= i < |meta| ==> MetaFits(meta[i], versioned)
  }

  lemma {:induction false} MetasFitSnoc(meta: seq<Meta>, versioned: bool)
    requires meta != []
    ensures MetasFit(meta, versioned)
       <==> MetasFit(meta[..|meta| - 1], versioned) && MetaFits(meta[|meta| - 1], versioned)
  {
    assert forall i :: 0 <= i < |meta| - 1 ==> meta[..|meta| - 1][i] == meta[i];
  }

  /** The atoms whose JSON the reader accepts. */
  predicate Representable(a: AtomData) {
    RepresentableScalars(a) && MetasFit(a.meta, a.version.Some?)
  }

  /** What is left of one meta: NULL and keyless ones go, and valueless ones unless versioned. */
  function CanonMeta(m: Meta, versioned: bool): seq<Meta> {
    if m.NullMeta? || m.key.None? || (m.value.None? && !versioned) then [] else [m]
  }

  function CanonMetas(meta: seq<Meta>, versioned: bool): seq<Meta> {
    if meta == [] then []
    else CanonMetas(meta[..|meta| - 1], versioned) + CanonMeta(meta[|meta| - 1], versioned)
  }

  /** What a trip through JSON leaves of an atom. */
  function Canon(a: AtomData): AtomData {
    a.(position := Some(OrEmpty(a.position)), walletAddress := Some(OrEmpty(a.walletAddress)),
    value := NonEmpty(a.value), batchId := NonEmpty(a.batchId),
    metaType := NonEmpty(a.metaType), metaId := NonEmpty(a.metaId),
    meta := CanonMetas(a.meta, a.version.Some?),
    createdAt := CreatedMs(a) / 1000, createdAtMs := CreatedMs(a))
  }

  lemma {:induction false} ReadWrittenMeta(m: Meta, versioned: bool)
    requires m.Meta? && m.key.Some?
    ensures ReadMeta(MetaItem(m)[0], versioned)
         == if MetaFits(m, versioned) then Success(CanonMeta(m, versioned)) else Failure(InvalidJson)
  {
    var members := [("key", JStr(m.key.value)), ("value", StringOrNull(m.value))];
    assert MetaItem(m)[0] == JObj(members);
    assert Lookup(members, "key") == Some(JStr(m.key.value));
    assert members[1..] == [("value", StringOrNull(m.value))];
    assert Lookup(members, "value") == Lookup(members[1..], "value") == Some(StringOrNull(m.value));
  }

  lemma {:induction false} ReadWrittenMetas(meta: seq<Meta>, versioned: bool)
    ensures ReadMetas(MetaItems(meta), versioned)
         == if MetasFit(meta, versioned) then Success(CanonMetas(meta, versioned)) else Failure(InvalidJson)
  {
    if meta != [] {
      var front, last := meta[..|meta| - 1], meta[|meta| - 1];
      ReadWrittenMetas(front, versioned);
      MetasFitSnoc(meta, versioned);
      if last.Meta? && last.key.Some? {
        ReadWrittenMeta(last, versioned);
        ReadMetasSnoc(MetaItems(front), MetaItem(last)[0], versioned);
        assert MetaItem(last) == [MetaItem(last)[0]];
      } else {
        assert MetaItems(meta) == MetaItems(front);
        assert CanonMetas(meta, versioned) == CanonMetas(front, versioned);
      }
    }
  }

  lemma {:induction false} ReadMetasSnoc(front: seq<Json>, entry: Json, versioned: bool)
    ensures ReadMetas(front + [entry], versioned)
         == if ReadMetas(front, versioned).Failure? then ReadMetas(front, versioned)
            else if ReadMeta(entry, versioned).Failure? then Failure(ReadMeta(entry, versioned).error)
            else Success(ReadMetas(front, versioned).value + ReadMeta(entry, versioned).value)
  {
    assert (front + [entry])[..|front|] == front;
  }

  /** What the reader finds in j under each name it asks for is the field of a. */
  ghost predicate ReadsStrings(j: Json, a: AtomData) {
    OptionalString(j, "position") == Success(a.position) &&
    OptionalString(j, "walletAddress") == Success(a.walletAddress) &&
    OptionalString(j, "value") == Success(NonEmpty(a.value)) &&
    OptionalString(j, "batchId") == Success(NonEmpty(a.batchId)) &&
    OptionalString(j, "metaType") == Success(NonEmpty(a.metaType)) &&
    OptionalString(j, "metaId") == Success(NonEmpty(a.metaId)) &&
    OptionalString(j, "otsFragment") == Success(a.otsFragment)
  }

  ghost predicate ReadsOthers(j: Json, a: AtomData) {
    Member(j, "isotope") == Written(IsotopeText(a.isotope)) && Member(j, "token") == Written(a.token) &&
    VersionOf(j) == Success(a.version) &&
    Member(j, "createdAt") == Some(JStr(IntText(CreatedMs(a)))) &&
    Member(j, "index") == Some(JNum(DoubleOfInt(a.index))) &&
    Member(j, "meta") == Some(JArr(MetaItems(a.meta)))
  }

  ghost predicate ReadsAs(j: Json, a: AtomData) {
    ReadsStrings(j, a) && ReadsOthers(j, a)
  }

  lemma {:induction false} FieldRead(fields: seq<(string, Option<Json>)>, i: nat, name: string)
    requires DistinctNames(fields) && i < |fields| && fields[i].0 == name
    ensures Member(JObj(Present(fields)), name) == fields[i].1
  {
    LookupPresent(fields, i);
  }

  lemma {:induction false} WrittenRead(fields: seq<(string, Option<Json>)>, i: nat, name: string, t: Text)
    requires DistinctNames(fields) && i < |fields| && fields[i] == (name, Written(t))
    ensures OptionalString(JObj(Present(fields)), name) == Success(t)
  {
    LookupPresent(fields, i);
  }

  lemma {:induction false} NullableRead(fields: seq<(string, Option<Json>)>, i: nat, name: string, t: Text)
    requires DistinctNames(fields) && i < |fields| && fields[i] == (name, Some(StringOrNull(NonEmpty(t))))
    ensures OptionalString(JObj(Present(fields)), name) == Success(NonEmpty(t))
  {
    LookupPresent(fields, i);
  }

  lemma {:induction false} StringsRead(a: AtomData)
    ensures ReadsStrings(AtomToJson(a), a)
  {
    var f := AtomFields(a);
    AtomNamesDistinct(a);
    hide Present, OptionalString, DistinctNames, IntText, DoubleOfInt, MetaItems, IsotopeText, Written, StringOrNull;
    WrittenRead(f, 0, "position", a.position);
    WrittenRead(f, 1, "walletAddress", a.walletAddress);
    NullableRead(f, 4, "value", a.value);
    NullableRead(f, 5, "batchId", a.batchId);
    NullableRead(f, 6, "metaType", a.metaType);
    NullableRead(f, 7, "metaId", a.metaId);
    WrittenRead(f, 12, "otsFragment", a.otsFragment);
  }

  lemma {:induction false} OthersRead(a: AtomData)
    ensures ReadsOthers(AtomToJson(a), a)
  {
    var f := AtomFields(a);
    AtomNamesDistinct(a);
    hide Present, Member, DistinctNames, IntText, DoubleOfInt, MetaItems, Layout, NumberOf, IsotopeText;
    FieldRead(f, 2, "isotope");
    FieldRead(f, 3, "token");
    FieldRead(f, 8, "meta");
    FieldRead(f, 9, "createdAt");
    FieldRead(f, 10, "index");
    FieldRead(f, 11, "version");
  }

  lemma {:induction false} FieldsRead(a: AtomData)
    ensures ReadsAs(AtomToJson(a), a)
  {
    hide AtomToJson, ReadsStrings, ReadsOthers;
    StringsRead(a);
    OthersRead(a);
  }

  lemma {:induction false} IndexRead(j: Json, a: AtomData)
    requires ReadsAs(j, a)
    ensures IndexValue(j) == if 0 <= a.index <= INT_MAX then Some(a.index) else None
  {
    DoubleOfIntReads(a.index);
  }

  /** The atom without its metas. */
  function Scalars(a: AtomData): AtomData {
    Canon(a).(meta := [])
  }

  predicate RepresentableScalars(a: AtomData) {
    a.isotope != UNKNOWN && a.token.Some? &&
    LengthOk(OrEmpty(a.position)) && LengthOk(OrEmpty(a.walletAddress)) &&
    FitsMillis(CreatedMs(a)) && 0 <= a.index <= INT_MAX
  }

  lemma {:induction false} ScalarsRead(j: Json, a: AtomData)
    requires ReadsAs(j, a)
    ensures ReadScalars(j) == if RepresentableScalars(a) then Success(Scalars(a)) else Failure(InvalidJson)
  {
    StringsTogether(j, a);
    NumbersTogether(j, a);
    KnownIsotope(a.isotope);
    hide ReadStrings, ReadNumbers, ReadsStrings, VersionOf, Member, IntText, DoubleOfInt, MetaItems, IsotopeText, IsotopeOf;
  }

  lemma {:induction false} KnownIsotope(isotope: Isotope)
    ensures isotope == UNKNOWN <==> IsotopeText(isotope).None?
    ensures isotope != UNKNOWN ==> IsotopeOf(IsotopeText(isotope).value) == isotope
  {
    if isotope != UNKNOWN {
      IsotopeRoundTrip(isotope, IsotopeText(isotope).value);
    }
  }

  lemma {:induction false} StringsTogether(j: Json, a: AtomData)
    requires ReadsAs(j, a)
    ensures ReadStrings(j) == Success(Strings(a.position, a.walletAddress, NonEmpty(a.value), NonEmpty(a.batchId),
                                              NonEmpty(a.metaType), NonEmpty(a.metaId), a.otsFragment, a.version))
  {
    hide OptionalString, VersionOf, Member;
  }

  lemma {:induction false} NumbersTogether(j: Json, a: AtomData)
    requires ReadsAs(j, a)
    ensures ReadNumbers(j) == if FitsMillis(CreatedMs(a)) && 0 <= a.index <= INT_MAX then Some((CreatedMs(a), a.index)) else None
  {
    IndexRead(j, a);
    MillisRoundTrip(CreatedMs(a));
    hide OptionalString, VersionOf, IndexValue, Millis;
  }

  lemma {:induction false} ReadsBack(j: Json, a: AtomData)
    requires ReadsAs(j, a)
    ensures AtomFromJson(j) == if Representable(a) then Success(Canon(a)) else Failure(InvalidJson)
  {
    ScalarsRead(j, a);
    ReadWrittenMetas(a.meta, a.version.Some?);
  }

  /** The reader accepts exactly the representable atoms, and returns their canonical form. */
  lemma {:induction false} JsonRoundTrip(a: AtomData)
    ensures AtomFromJson(AtomToJson(a))
         == if Representable(a) then Success(Canon(a)) else Failure(InvalidJson)
  {
    FieldsRead(a);
    ReadsBack(AtomToJson(a), a);
  }

  /** A second trip changes nothing. */
  lemma {:induction false} CanonIdempotent(a: AtomData)
    requires Representable(a)
    ensures Representable(Canon(a)) && Canon(Canon(a)) == Canon(a)
  {
    CanonMetasTwice(a.meta, a.version.Some?);
  }

  lemma {:induction false} CanonMetasTwice(meta: seq<Meta>, versioned: bool)
    ensures CanonMetas(CanonMetas(meta, versioned), versioned) == CanonMetas(meta, versioned)
    ensures MetasFit(meta, versioned) ==> MetasFit(CanonMetas(meta, versioned), versioned)
  {
    if meta != [] {
      var front, last := meta[..|meta| - 1], meta[|meta| - 1];
      CanonMetasTwice(front, versioned);
      MetasFitSnoc(meta, versioned);
      var c := CanonMetas(meta, versioned);
      if CanonMeta(last, versioned) == [] {
        assert c == CanonMetas(front, versioned);
      } else {
        assert c[..|c| - 1] == CanonMetas(front, versioned) && c[|c| - 1] == last;
        MetasFitSnoc(c, versioned);
      }
    }
  }

  // ---------------------------------------------------------------- what the reader takes

  /** A version given as a number is read as a text that denotes the number; it must be finite. */
  lemma {:induction false} NumericVersion(json: Json, v: Double)
    requires Member(json, "version") == Some(JNum(v)) && IsDouble(v)
    ensures VersionOf(json).Success? <==> !v.NotFinite?
    ensures v.ZeroValue? ==> VersionOf(json) == Success(Some("0"))
    ensures v.Finite? ==>
              VersionOf(json).value.Some? &&
              var parsed := ParseNumber(VersionOf(json).value.value);
              parsed.negative == v.negative &&
              SameValue(parsed.coefficient, parsed.exponent, NumeralValue(10, Stripped(v.digits)),
                        v.exponent + 1 - |Stripped(v.digits)|)
  {
    assert v.ZeroValue? ==> Layout(NumberOf(v)) == "0";
    hide Layout, ParseNumber, SameValue, NumeralValue, Stripped, IsDouble;
    if !v.NotFinite? {
      LayoutFits(v);
    }
    if v.Finite? {
      NumberDenotes(v);
    }
  }

  lemma {:induction false} NumberDenotes(v: Double)
    requires IsDouble(v) && v.Finite?
    ensures var parsed, digits := ParseNumber(Layout(NumberOf(v))), Stripped(v.digits);
            parsed.negative == v.negative &&
            SameValue(parsed.coefficient, parsed.exponent, NumeralValue(10, digits), v.exponent + 1 - |digits|)
  {
    hide Layout, ParseNumber, SameValue, NumeralValue, Stripped;
    SignificantStripped(v.digits);
    LayoutRoundTrip(NumberOf(v));
  }

  lemma {:induction false} SignificantStripped(digits: string)
    requires IsSignificant(digits)
    ensures IsSignificant(Stripped(digits))
  {
  }

  /** The version of an atom that was read. */
  lemma {:induction false} ReadVersion(json: Json)
    ensures AtomFromJson(json).Success? ==> VersionOf(json) == Success(AtomFromJson(json).value.version)
  {
    hide VersionOf, ReadMetas, OptionalString, ReadNumbers;
  }

  /** A meta the reader keeps, whatever the version of its atom. */
  predicate Whole(m: Meta) {
    m.Meta? && m.key.Some? && m.value.Some?
  }

  predicate Short(m: Meta) {
    Whole(m) && |m.key.value| <= 256 && |m.value.value| <= 4096
  }

  lemma {:induction false} WholeMetasStay(meta: seq<Meta>, versioned: bool)
    requires forall i :: 0 <= i < |meta| ==> Whole(meta[i])
    ensures CanonMetas(meta, versioned) == meta
    ensures MetasFit(meta, versioned) <==> forall i :: 0 <= i < |meta| ==> Short(meta[i])
  {
    if meta != [] {
      WholeMetasStay(meta[..|meta| - 1], versioned);
    }
  }

  /** A string after a trip: the same, or NULL and the empty one exchanged. */
  predicate Same(before: Text, after: Text) {
    OrEmpty(before) == OrEmpty(after)
  }

  /**
   The trip field by field, for an atom whose metas all have key and value: when it is accepted,
   and that every field arrives.
   */
  lemma {:induction false} AtomTrip(a: AtomData)
    requires forall i :: 0 <= i < |a.meta| ==> Whole(a.meta[i])
    ensures var ms, read := if a.createdAtMs > 0 then a.createdAtMs else a.createdAt * 1000, AtomFromJson(AtomToJson(a));
            (read.Success? <==>
               a.isotope != UNKNOWN && a.token.Some? && |OrEmpty(a.position)| in {0, 64} &&
               |OrEmpty(a.walletAddress)| in {0, 64} && 0 <= a.index <= 0x7fff_ffff && FitsMillis(ms) &&
               forall i :: 0 <= i < |a.meta| ==> Short(a.meta[i])) &&
            (read.Success? ==>
               var b := read.value;
               b.isotope == a.isotope && b.token == a.token && b.index == a.index && b.version == a.version &&
               b.otsFragment == a.otsFragment && b.meta == a.meta && b.createdAtMs == ms && b.createdAt == ms / 1000 &&
               Same(a.position, b.position) && Same(a.walletAddress, b.walletAddress) && Same(a.value, b.value) &&
               Same(a.batchId, b.batchId) && Same(a.metaType, b.metaType) && Same(a.metaId, b.metaId))
  {
    JsonRoundTrip(a);
    WholeMetasStay(a.meta, a.version.Some?);
    hide AtomFromJson, AtomToJson, CanonMetas, MetasFit, FitsMillis;
  }

  lemma {:induction false} ReadMetasFit(entries: seq<Json>, versioned: bool)
    ensures var metas := ReadMetas(entries, versioned);
            metas.Success? ==> MetasFit(metas.value, versioned) && CanonMetas(metas.value, versioned) == metas.value
  {
    if entries != [] && ReadMetas(entries, versioned).Success? {
      var front := entries[..|entries| - 1];
      ReadMetasFit(front, versioned);
      var before := ReadMetas(front, versioned).value;
      var added := ReadMeta(entries[|entries| - 1], versioned).value;
      if added == [] {
        assert before + added == before;
      } else {
        assert added == [added[0]] && (before + added)[..|before|] == before;
        MetasFitSnoc(before + added, versioned);
      }
    }
  }

  lemma {:induction false} ReadScalarsFit(json: Json)
    requires ReadScalars(json).Success?
    ensures var a := ReadScalars(json).value;
            RepresentableScalars(a) && a.meta == [] && a.position.Some? && a.walletAddress.Some? &&
            a.createdAt == a.createdAtMs / 1000 && a.createdAtMs == CreatedMs(a)
  {
    MillisFit(Member(json, "createdAt").value.text);
    hide Millis, VersionOf, OptionalString, IsotopeOf, IntegerOf;
  }

  /** Whatever was read can be written and read again, and then nothing changes but "" to NULL. */
  lemma {:induction false} ReadIsRead(json: Json)
    requires AtomFromJson(json).Success?
    ensures var a := AtomFromJson(json).value;
            AtomFromJson(AtomToJson(a))
            == Success(a.(value := NonEmpty(a.value), batchId := NonEmpty(a.batchId), metaType := NonEmpty(a.metaType),
                       metaId := NonEmpty(a.metaId)))
  {
    var a := AtomFromJson(json).value;
    ReadScalarsFit(json);
    ReadMetasFit(MetaEntries(json), a.version.Some?);
    JsonRoundTrip(a);
    hide AtomToJson, ReadMetas, CanonMetas, MetasFit, ReadScalars, FitsMillis;
  }

  /** The wire form, name by name; a NULL position, address, token, version or fragment is not written. */
  lemma {:induction false} AtomWire(a: AtomData)
    ensures var j := AtomToJson(a);
            Member(j, "position") == Written(a.position) && Member(j, "walletAddress") == Written(a.walletAddress) &&
            Member(j, "isotope") == Written(IsotopeText(a.isotope)) && Member(j, "token") == Written(a.token) &&
            Member(j, "value") == Some(StringOrNull(NonEmpty(a.value))) &&
            Member(j, "batchId") == Some(StringOrNull(NonEmpty(a.batchId))) &&
            Member(j, "metaType") == Some(StringOrNull(NonEmpty(a.metaType))) &&
            Member(j, "metaId") == Some(StringOrNull(NonEmpty(a.metaId))) &&
            Member(j, "meta") == Some(JArr(MetaItems(a.meta))) &&
            Member(j, "createdAt") == Some(JStr(IntText(CreatedMs(a)))) &&
            Member(j, "index") == Some(JNum(DoubleOfInt(a.index))) &&
            Member(j, "version") == Written(a.version) && Member(j, "otsFragment") == Written(a.otsFragment)
  {
    var f := AtomFields(a);
    AtomNamesDistinct(a);
    hide Present, Member, DistinctNames, IntText, DoubleOfInt, MetaItems, IsotopeText, Written, StringOrNull, NonEmpty;
    hide CreatedMs;
    FieldRead(f, 0, "position");
    FieldRead(f, 1, "walletAddress");
    FieldRead(f, 2, "isotope");
    FieldRead(f, 3, "token");
    FieldRead(f, 4, "value");
    FieldRead(f, 5, "batchId");
    FieldRead(f, 6, "metaType");
    FieldRead(f, 7, "metaId");
    FieldRead(f, 8, "meta");
    FieldRead(f, 9, "createdAt");
    FieldRead(f, 10, "index");
    FieldRead(f, 11, "version");
    FieldRead(f, 12, "otsFragment");
  }
}
