/**
 The atom as the object the library passes around (src/atom.c:65-331, 420-596, 632-780):
 its methods against the functions of AtomJson.
 */
module AtomObject {
  import opened Basics
  import opened Decimal
  import opened Atoms
  import opened AtomJson

  class Atom {
    var position: Text
    var walletAddress: Text
    var isotope: Isotope
    var token: Text
    var value: Text
    var batchId: Text
    var metaType: Text
    var metaId: Text
    var meta: seq<Meta>
    var otsFragment: Text
    var index: int
    var version: Text
    var createdAt: int
    var createdAtMs: int

    constructor (position: string, walletAddress: string, isotope: Isotope, token: string, value: Text,
                 batchId: Text, metaType: Text, metaId: Text, meta: seq<Meta>, now: int)
      ensures Data() == AtomData(Some(position), Some(walletAddress), isotope, Some(token), value, batchId,
                                 metaType, metaId, meta, None, -1, None, now, 0)
    {
      this.position, this.walletAddress, this.isotope := Some(position), Some(walletAddress), isotope;
      this.token, this.value, this.batchId := Some(token), value, batchId;
      this.metaType, this.metaId, this.meta := metaType, metaId, meta;
      otsFragment, index, version, createdAt, createdAtMs := None, -1, None, now, 0;
    }

    function Data(): AtomData
      reads this
    {
      AtomData(position, walletAddress, isotope, token, value, batchId, metaType, metaId, meta, otsFragment,
               index, version, createdAt, createdAtMs)
    }

    /** knishio_atom_create_with_meta; now is the clock. */
    static method Create(position: Text, walletAddress: Text, isotope: Isotope, token: Text, value: Text,
                         batchId: Text, metaType: Text, metaId: Text, meta: seq<Meta>, now: int)
      returns (error: Error, atom: Atom?)
      ensures error == Ok <==> Creatable(position, walletAddress, token)
      ensures error != Ok ==> error == InvalidArgs && atom == null
      ensures error == Ok ==>
                atom != null && fresh(atom) &&
                atom.Data() == AtomData(position, walletAddress, isotope, token, value, batchId, metaType, metaId,
                                        meta, None, -1, None, now, 0)
    {
      if position.None? || walletAddress.None? || token.None? {
        return InvalidArgs, null;
      }
      if (|position.value| != 0 && |position.value| != POSITION_LENGTH) ||
         (|walletAddress.value| != 0 && |walletAddress.value| != POSITION_LENGTH) {
        return InvalidArgs, null;
      }
      atom := new Atom(position.value, walletAddress.value, isotope, token.value, value, batchId,
                       metaType, metaId, meta, now);
      return Ok, atom;
    }

    static predicate Creatable(position: Text, walletAddress: Text, token: Text) {
      position.Some? && walletAddress.Some? && token.Some? && LengthOk(position.value) && LengthOk(walletAddress.value)
    }

    /** knishio_atom_set_index. */
    method SetIndex(index: int) returns (error: Error)
      modifies this`index
      ensures error == if index < 0 then InvalidArgs else Ok
      ensures Data() == if index < 0 then old(Data()) else old(Data()).(index := index)
    {
      if index < 0 {
        return InvalidArgs;
      }
      this.index := index;
      return Ok;
    }

    /** knishio_atom_add_meta. */
    method AddMeta(m: Meta) returns (error: Error)
      modifies this`meta
      ensures error == if m.NullMeta? then InvalidArgs else Ok
      ensures Data() == if m.NullMeta? then old(Data()) else old(Data()).(meta := old(meta) + [m])
    {
      if m.NullMeta? {
        return InvalidArgs;
      }
      meta := meta + [m];
      return Ok;
    }

    /** The meta array of knishio_atom_to_json. */
    method MetaToJson() returns (items: seq<Json>)
      ensures items == MetaItems(meta)
    {
      items := [];
      for i := 0 to |meta|
        invariant items == MetaItems(meta[..i])
      {
        assert meta[..i + 1][..i] == meta[..i];
        var m := meta[i];
        if m.NullMeta? || m.key.None? {
          continue;
        }
        items := items + [JObj([("key", JStr(m.key.value)),
                                ("value", if m.value.Some? then JStr(m.value.value) else JNull)])];
      }
      assert meta[..|meta|] == meta;
    }

    /** The required members, written when present. */
    method RequiredToJson() returns (members: seq<(string, Json)>)
      ensures members == Present(AtomFields(Data())[..4])
    {
      PresentFour(AtomFields(Data()));
      members := [];
      members := AppendString(members, "position", position);
      members := AppendString(members, "walletAddress", walletAddress);
      members := AppendString(members, "isotope", IsotopeText(isotope));
      members := AppendString(members, "token", token);
    }

    /** The members that are always written, null when they have no value. */
    method ValuesToJson(head: seq<(string, Json)>) returns (members: seq<(string, Json)>)
      requires head == Present(AtomFields(Data())[..4])
      ensures members == Present(AtomFields(Data())[..11])
    {
      PresentSeven(AtomFields(Data()), head);
      members := head;
      members := members + [("value", NullableString(value))];
      members := members + [("batchId", NullableString(batchId))];
      members := members + [("metaType", NullableString(metaType))];
      members := members + [("metaId", NullableString(metaId))];
      var items := MetaToJson();
      members := members + [("meta", JArr(items))];
      members := members + [("createdAt", JStr(IntText(if createdAtMs > 0 then createdAtMs else createdAt * 1000)))];
      members := members + [("index", JNum(DoubleOfInt(index)))];
    }

    /** knishio_atom_to_json: the members are appended one after the other. */
    method ToJson() returns (json: Json)
      ensures json == AtomToJson(Data())
    {
      ghost var f := AtomFields(Data());
      var members := RequiredToJson();
      members := ValuesToJson(members);
      PresentStep(f, 11);
      PresentStep(f, 12);
      assert f[..13] == f;
      members := AppendString(members, "version", version);
      members := AppendString(members, "otsFragment", otsFragment);
      json := JObj(members);
    }

    /** The hashed values come from the JSON verbatim instead of from the constructor. */
    method SetWireFields(createdMs: int, index: int, version: Text, otsFragment: Text)
      modifies this
      ensures Data() == old(Data()).(createdAt := createdMs / 1000, createdAtMs := createdMs, index := index,
                                     version := version, otsFragment := otsFragment)
    {
      createdAt := createdMs / 1000;
      createdAtMs := createdMs;
      this.index := index;
      this.version := version;
      this.otsFragment := otsFragment;
    }

    /** knishio_atom_from_cjson up to the metas. */
    static method FromScalars(json: Json) returns (error: Error, atom: Atom?)
      ensures match ReadScalars(json)
              case Failure(e) => error == e && atom == null
              case Success(data) => error == Ok && atom != null && fresh(atom) && atom.Data() == data
    {
      var isotopeItem, tokenItem := Member(json, "isotope"), Member(json, "token");
      if isotopeItem.None? || !isotopeItem.value.JStr? || tokenItem.None? || !tokenItem.value.JStr? {
        return InvalidJson, null;
      }
      var isotope := IsotopeFromString(isotopeItem.value.text);
      if isotope == UNKNOWN {
        return InvalidJson, null;
      }
      var strings := ReadStrings(json);
      if strings.Failure? {
        return InvalidJson, null;
      }
      var numbers, metaItem := ReadNumbers(json), Member(json, "meta");
      if numbers.None? || (metaItem.Some? && !metaItem.value.JNull? && !metaItem.value.JArr?) {
        return InvalidJson, null;
      }
      var s, n := strings.value, numbers.value;
      error, atom := Create(Some(OrEmpty(s.position)), Some(OrEmpty(s.walletAddress)), isotope,
                            Some(tokenItem.value.text), s.value, s.batchId, s.metaType, s.metaId, [], 0);
      if error != Ok {
        return InvalidJson, null;
      }
      atom.SetWireFields(n.0, n.1, s.version, s.otsFragment);
    }

    /** knishio_atom_from_cjson: the checks and fields, then the metas. */
    static method FromJson(json: Json) returns (error: Error, atom: Atom?)
      ensures match AtomFromJson(json)
              case Failure(e) => error == e && atom == null
              case Success(data) => error == Ok && atom != null && fresh(atom) && atom.Data() == data
    {
      error, atom := FromScalars(json);
      if error != Ok {
        return;
      }
      assert ReadScalars(json) == Success(atom.Data());
      ReadScalarsNoMeta(json);
      error := atom.ReadMetaEntries(MetaEntries(json), atom.version.Some?);
      if error != Ok {
        return InvalidJson, null;
      }
    }

    /** The loop over the meta array of an atom object; on failure the atom is discarded. */
    method ReadMetaEntries(entries: seq<Json>, versioned: bool) returns (err: Error)
      requires meta == []
      modifies this`meta
      ensures ReadMetas(entries, versioned).Failure? ==> err == InvalidJson == ReadMetas(entries, versioned).error
      ensures ReadMetas(entries, versioned).Success? ==> err == Ok && meta == ReadMetas(entries, versioned).value
    {
      assert entries[..0] == [];
      for i := 0 to |entries|
        invariant ReadMetas(entries[..i], versioned) == Success(meta)
      {
        var entry := entries[i];
        assert entries[..i + 1] == entries[..i] + [entry];
        ReadMetasSnoc(entries[..i], entry, versioned);
        ghost var before := meta;
        var read := ReadMeta(entry, versioned);
        if read.Failure? {
          ReadMetasFails(entries, i + 1, versioned);
          return InvalidJson;
        }
        if read.value != [] {
          var added := AddMeta(read.value[0]);
        }
        assert meta == before + read.value;
      }
      assert entries[..|entries|] == entries;
      return Ok;
    }
  }

  /** append_escaped_kv, when the field is present. */
  function AppendString(members: seq<(string, Json)>, key: string, t: Text): seq<(string, Json)> {
    if t.Some? then members + [(key, JStr(t.value))] else members
  }

  function NullableString(t: Text): Json {
    if t.Some? && |t.value| > 0 then JStr(t.value) else JNull
  }

  /** Writing the first k + 1 fields is writing k, then the next one if it is present. */
  ghost predicate Extends(f: seq<(string, Option<Json>)>, k: nat)
    requires k < |f|
  {
    Present(f[..k + 1]) == if f[k].1.Some? then Present(f[..k]) + [(f[k].0, f[k].1.value)] else Present(f[..k])
  }

  lemma {:induction false} PresentStep(f: seq<(string, Option<Json>)>, k: nat)
    requires k < |f|
    ensures Extends(f, k)
  {
    assert f[..k + 1][..k] == f[..k];
  }

  lemma {:induction false} PresentFour(f: seq<(string, Option<Json>)>)
    requires |f| >= 4
    ensures Present(f[..0]) == []
    ensures Extends(f, 0) && Extends(f, 1) && Extends(f, 2) && Extends(f, 3)
  {
    PresentStep(f, 0);
    PresentStep(f, 1);
    PresentStep(f, 2);
    PresentStep(f, 3);
  }

  /** The seven members that are always written. */
  lemma {:induction false} PresentSeven(f: seq<(string, Option<Json>)>, head: seq<(string, Json)>)
    requires |f| == 13 && head == Present(f[..4]) && forall k :: 4 <= k < 11 ==> f[k].1.Some?
    ensures Present(f[..11]) == head + [(f[4].0, f[4].1.value)] + [(f[5].0, f[5].1.value)] + [(f[6].0, f[6].1.value)]
                              + [(f[7].0, f[7].1.value)] + [(f[8].0, f[8].1.value)] + [(f[9].0, f[9].1.value)]
                              + [(f[10].0, f[10].1.value)]
  {
    PresentStep(f, 4);
    PresentStep(f, 5);
    PresentStep(f, 6);
    PresentStep(f, 7);
    PresentStep(f, 8);
    PresentStep(f, 9);
    PresentStep(f, 10);
  }

  lemma {:induction false} ReadScalarsNoMeta(json: Json)
    ensures ReadScalars(json).Success? ==> ReadScalars(json).value.meta == []
    ensures ReadScalars(json).Failure? ==> ReadScalars(json).error == InvalidJson
  {
  }

  /** A malformed entry makes the whole array malformed, and every failure is the same one. */
  lemma {:induction false} ReadMetasFails(entries: seq<Json>, k: nat, versioned: bool)
    requires k <= |entries| && ReadMetas(entries[..k], versioned).Failure?
    ensures ReadMetas(entries, versioned) == Failure(InvalidJson)
    decreases |entries|
  {
    if k == |entries| {
      assert entries[..k] == entries;
      ReadMetasErrors(entries, versioned);
    } else {
      var front := entries[..|entries| - 1];
      assert front[..k] == entries[..k];
      ReadMetasFails(front, k, versioned);
    }
  }

  lemma {:induction false} ReadMetasErrors(entries: seq<Json>, versioned: bool)
    ensures ReadMetas(entries, versioned).Failure? ==> ReadMetas(entries, versioned).error == InvalidJson
  {
    if entries != [] {
      ReadMetasErrors(entries[..|entries| - 1], versioned);
    }
  }
}
