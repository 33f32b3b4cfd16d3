/**
 The steps of hashing, signing and checking on the atom objects (src/molecule.c:447-566,
 645-867, src/libraries/check_molecule.c:208-343): sorting, absorbing, cutting and
 rebuilding the signature, each against the functions of Hashing, Fragments and Chains.
 */
module SigningSteps {
  import opened Basics
  import opened Digits
  import opened Decimal
  import opened Base17
  import opened Normalize
  import opened Chains
  import opened ChainRunner
  import opened Atoms
  import opened AtomObject
  import opened Hashing
  import opened Fragments
  import opened Signing

  /** The SHAKE256 context while it absorbs. */
  class Sponge {
    var absorbed: string

    constructor ()
      ensures absorbed == ""
    {
      absorbed := "";
    }

    /** knishio_shake256_update_string: NULL absorbs nothing. */
    method UpdateString(t: Text)
      modifies this
      ensures absorbed == old(absorbed) + OrEmpty(t)
    {
      if t.Some? {
        absorbed := absorbed + t.value;
      }
    }
  }

  /** What the atom objects hold. */
  function DataOf(atoms: seq<Atom>): (data: seq<AtomData>)
    reads atoms
    ensures |data| == |atoms|
    ensures forall i :: 0 <= i < |atoms| ==> data[i] == atoms[i].Data()
  {
    seq(|atoms|, i requires 0 <= i < |atoms| reads atoms => atoms[i].Data())
  }

  predicate Distinct(atoms: seq<Atom>) {
    forall i, j :: 0 <= i < j < |atoms| ==> atoms[i] != atoms[j]
  }

  // ---------------------------------------------------------------- sorting and hashing

  /** t holds the objects of s. */
  ghost predicate Rearranges(t: seq<Atom>, s: seq<Atom>) {
    multiset(t) == multiset(s) && |t| == |s|
  }

  /** Places the i-th atom after the last one whose index is not greater. */
  method InsertAtom(s: seq<Atom>, a: Atom, ghost atoms: seq<Atom>, ghost i: nat) returns (r: seq<Atom>)
    requires i < |atoms| && atoms[i] == a && Rearranges(s, atoms[..i])
    ensures Rearranges(r, atoms[..i + 1])
    ensures DataOf(r) == Insert(DataOf(s), a.Data())
  {
    var j := |s|;
    while j > 0 && s[j - 1].index > a.index
      invariant 0 <= j <= |s| && forall k :: j <= k < |s| ==> s[k].index > a.index
    {
      j := j - 1;
    }
    InsertedObject(s, a, j, atoms, i);
    r := s[..j] + [a] + s[j..];
  }

  lemma {:induction false} InsertedObject(s: seq<Atom>, a: Atom, j: nat, atoms: seq<Atom>, i: nat)
    requires j <= |s| && (j > 0 ==> s[j - 1].index <= a.index) && forall k :: j <= k < |s| ==> s[k].index > a.index
    requires i < |atoms| && atoms[i] == a && Rearranges(s, atoms[..i])
    ensures DataOf(s[..j] + [a] + s[j..]) == Insert(DataOf(s), a.Data())
    ensures Rearranges(s[..j] + [a] + s[j..], atoms[..i + 1])
  {
    InsertAt(DataOf(s), a.Data(), j);
    InsertObject(s, a, j);
    RearrangesInsert(s, a, j, atoms, i);
  }

  lemma {:induction false} RearrangesInsert(s: seq<Atom>, a: Atom, j: nat, atoms: seq<Atom>, i: nat)
    requires j <= |s| && i < |atoms| && atoms[i] == a && Rearranges(s, atoms[..i])
    ensures Rearranges(s[..j] + [a] + s[j..], atoms[..i + 1])
  {
    assert s == s[..j] + s[j..];
    assert atoms[..i + 1] == atoms[..i] + [a];
  }

  /** qsort with compare_atoms_by_index, on pointers. */
  method SortAtoms(atoms: seq<Atom>) returns (sorted: seq<Atom>)
    requires Distinct(atoms)
    ensures multiset(sorted) == multiset(atoms) && |sorted| == |atoms| && Distinct(sorted)
    ensures forall a :: a in sorted ==> a in atoms
    ensures DataOf(sorted) == SortByIndex(DataOf(atoms))
  {
    ghost var data := DataOf(atoms);
    sorted := [];
    assert data[..0] == [] && atoms[..0] == [];
    for i := 0 to |atoms|
      invariant Rearranges(sorted, atoms[..i])
      invariant DataOf(sorted) == SortByIndex(data[..i])
    {
      sorted := InsertAtom(sorted, atoms[i], atoms, i);
      SortSnoc(data, i);
    }
    assert atoms[..|atoms|] == atoms && data[..|atoms|] == data;
    DistinctFromMultiset(atoms, sorted);
  }

  lemma {:induction false} SortSnoc(data: seq<AtomData>, i: nat)
    requires i < |data|
    ensures SortByIndex(data[..i + 1]) == Insert(SortByIndex(data[..i]), data[i])
  {
    assert data[..i + 1][..i] == data[..i];
  }

  lemma {:induction false} InsertObject(s: seq<Atom>, a: Atom, j: nat)
    requires j <= |s|
    ensures DataOf(s[..j] + [a] + s[j..]) == DataOf(s)[..j] + [a.Data()] + DataOf(s)[j..]
  {
  }

  lemma {:induction false} DistinctFromMultiset(s: seq<Atom>, t: seq<Atom>)
    requires Distinct(s) && multiset(s) == multiset(t)
    ensures Distinct(t) && forall a :: a in t ==> a in s
  {
    forall a | a in t ensures a in s {
      assert a in multiset(t);
    }
    forall i, j | 0 <= i < j < |t| ensures t[i] != t[j] {
      if t[i] == t[j] {
        assert t == t[..i] + [t[i]] + t[i + 1..j] + [t[j]] + t[j + 1..];
        assert multiset(t)[t[i]] >= 2;
        assert multiset(s)[t[i]] >= 2;
        DistinctCount(s, t[i]);
      }
    }
  }

  lemma {:induction false} DistinctCount(s: seq<Atom>, a: Atom)
    requires Distinct(s)
    ensures multiset(s)[a] <= 1
  {
    if s != [] {
      var front, last := s[..|s| - 1], s[|s| - 1];
      DistinctCount(front, a);
      assert s == front + [last];
      if last == a {
        assert a !in front;
      }
    }
  }

  /** The fields update_sponge_with_atom absorbs before the metas; NULL ones are skipped. */
  method UpdateSpongeWithFields(sponge: Sponge, a: AtomData, atomCount: string)
    modifies sponge
    ensures sponge.absorbed == old(sponge.absorbed) + FieldsPreimage(a, atomCount)
  {
    ghost var before := sponge.absorbed;
    sponge.UpdateString(Some(atomCount));
    sponge.UpdateString(a.position);
    ghost var two := atomCount + OrEmpty(a.position);
    assert sponge.absorbed == before + two;
    sponge.UpdateString(a.walletAddress);
    sponge.UpdateString(IsotopeText(a.isotope));
    ghost var four := two + OrEmpty(a.walletAddress) + OrEmpty(IsotopeText(a.isotope));
    assert sponge.absorbed == before + four;
    sponge.UpdateString(a.token);
    sponge.UpdateString(a.value);
    ghost var six := four + OrEmpty(a.token) + OrEmpty(a.value);
    assert sponge.absorbed == before + six;
    sponge.UpdateString(a.batchId);
    sponge.UpdateString(a.metaType);
    ghost var eight := six + OrEmpty(a.batchId) + OrEmpty(a.metaType);
    assert sponge.absorbed == before + eight;
    sponge.UpdateString(a.metaId);
    assert sponge.absorbed == before + (eight + OrEmpty(a.metaId));
  }

  /** update_sponge_with_atom: the fields in order, the metas, then the timestamp. */
  method UpdateSpongeWithAtom(sponge: Sponge, a: AtomData, atomCount: string)
    modifies sponge
    ensures sponge.absorbed == old(sponge.absorbed) + AtomPreimage(a, atomCount)
  {
    ghost var before := sponge.absorbed;
    UpdateSpongeWithFields(sponge, a, atomCount);
    UpdateSpongeWithMeta(sponge, a.meta);
    var created := IntText(CreatedMs(a));
    sponge.UpdateString(Some(created));
    ghost var fields, metas := FieldsPreimage(a, atomCount), MetasPreimage(a.meta);
    assert before + fields + metas + created == before + (fields + metas + created);
  }

  /** Keys and values of the metas that have both. */
  method UpdateSpongeWithMeta(sponge: Sponge, meta: seq<Meta>)
    modifies sponge
    ensures sponge.absorbed == old(sponge.absorbed) + MetasPreimage(meta)
  {
    hide MetasPreimage;
    ghost var before := sponge.absorbed;
    NoMetasPreimage();
    assert meta[..0] == [] && before + "" == before;
    for i := 0 to |meta|
      invariant sponge.absorbed == before + MetasPreimage(meta[..i])
    {
      var m := meta[i];
      ghost var front := MetasPreimage(meta[..i]);
      MetasPreimageNext(meta, i);
      if m.Meta? && m.key.Some? && m.value.Some? {
        sponge.UpdateString(m.key);
        sponge.UpdateString(m.value);
        Associate(before, front, m.key.value);
        Associate(before, front + m.key.value, m.value.value);
      }
    }
    assert meta[..|meta|] == meta;
  }

  lemma {:induction false} NoMetasPreimage()
    ensures MetasPreimage([]) == ""
  {
  }

  lemma {:induction false} MetasPreimageNext(meta: seq<Meta>, i: nat)
    requires i < |meta|
    ensures MetasPreimage(meta[..i + 1])
         == if meta[i].Meta? && meta[i].key.Some? && meta[i].value.Some? then
              MetasPreimage(meta[..i]) + meta[i].key.value + meta[i].value.value
            else MetasPreimage(meta[..i])
  {
    assert meta[..i + 1][..i] == meta[..i];
    if meta[i].Meta? && meta[i].key.Some? && meta[i].value.Some? {
      Associate(MetasPreimage(meta[..i]), meta[i].key.value, meta[i].value.value);
    } else {
      assert MetasPreimage(meta[..i]) + "" == MetasPreimage(meta[..i]);
    }
  }

  /** Whether every atom carries a version. */
  method EveryAtomVersioned(atoms: seq<Atom>) returns (versioned: bool)
    ensures versioned <==> AllVersioned(old(DataOf(atoms)))
  {
    for i := 0 to |atoms|
      invariant forall k :: 0 <= k < i ==> DataOf(atoms)[k].version.Some?
    {
      if atoms[i].version.None? {
        assert DataOf(atoms)[i].version.None?;
        return false;
      }
    }
    return true;
  }

  /** Absorbs every atom's fields. */
  method AbsorbAtoms(sponge: Sponge, atoms: seq<Atom>, atomCount: string)
    requires sponge.absorbed == ""
    modifies sponge
    ensures sponge.absorbed == LegacyPreimage(old(DataOf(atoms)), atomCount)
  {
    ghost var data := DataOf(atoms);
    assert data[..0] == [];
    for k := 0 to |atoms|
      invariant sponge.absorbed == LegacyPreimage(data[..k], atomCount)
    {
      UpdateSpongeWithAtom(sponge, atoms[k].Data(), atomCount);
      assert data[..k + 1][..k] == data[..k];
    }
    assert data[..|atoms|] == data;
  }

  /** What generate_hash absorbs into a new context. */
  method AbsorbMolecule(printJson: Json -> string, atoms: seq<Atom>) returns (input: string)
    requires Distinct(atoms)
    ensures input == HashedText(printJson, old(DataOf(atoms)))
  {
    ghost var data := DataOf(atoms);
    var sorted := SortAtoms(atoms);
    input := AbsorbSorted(printJson, sorted, data);
  }

  method AbsorbSorted(printJson: Json -> string, sorted: seq<Atom>, ghost data: seq<AtomData>) returns (input: string)
    requires Distinct(sorted) && DataOf(sorted) == SortByIndex(data)
    ensures input == HashedText(printJson, data)
  {
    HashedTextOf(printJson, data, DataOf(sorted));
    hide HashedText, SortByIndex, LegacyPreimage, AtomViews, NatText;
    var everyAtomVersioned := EveryAtomVersioned(sorted);
    if everyAtomVersioned {
      input := AbsorbView(printJson, sorted);
    } else {
      input := AbsorbFields(sorted);
    }
  }

  method AbsorbView(printJson: Json -> string, sorted: seq<Atom>) returns (input: string)
    requires Distinct(sorted)
    ensures input == printJson(JArr(AtomViews(SortByIndex(old(DataOf(sorted))))))
  {
    var view := Version4View(sorted);
    var sponge := new Sponge();
    sponge.UpdateString(Some(printJson(view)));
    input := sponge.absorbed;
    assert input == "" + printJson(view);
  }

  method AbsorbFields(sorted: seq<Atom>) returns (input: string)
    ensures input == LegacyPreimage(old(DataOf(sorted)), NatText(|sorted|))
  {
    ghost var data := DataOf(sorted);
    var sponge := new Sponge();
    assert DataOf(sorted) == data;
    AbsorbAtoms(sponge, sorted, NatText(|sorted|));
    input := sponge.absorbed;
    assert DataOf(sorted) == data;
  }

  lemma {:induction false} HashedTextOf(printJson: Json -> string, data: seq<AtomData>, sorted: seq<AtomData>)
    requires sorted == SortByIndex(data)
    ensures HashedText(printJson, data)
         == if AllVersioned(sorted) then printJson(JArr(AtomViews(SortByIndex(sorted))))
            else LegacyPreimage(sorted, NatText(|data|))
  {
  }

  /** knishio_molecule_generate_hash on an array of atoms. */
  method HashAtoms(c: Crypto, printJson: Json -> string, atoms: seq<Atom>) returns (hash: string)
    requires c.Valid() && Distinct(atoms)
    ensures hash == MolecularHash(c, printJson, DataOf(atoms))
  {
    var input := AbsorbMolecule(printJson, atoms);
    hash := HashOf(c, input);
  }

  method HashOf(c: Crypto, input: string) returns (hash: string)
    requires c.Valid()
    ensures hash == ToBase17(c.shake(input, 256))
  {
    var hex := c.shake(input, 256);
    var base17 := HexToBase17(hex);
    hash := base17.value;
  }

  /** knishio_atoms_version4_view_json: sorts again, then one view per atom. */
  method Version4View(atoms: seq<Atom>) returns (view: Json)
    requires Distinct(atoms)
    ensures view == JArr(AtomViews(SortByIndex(old(DataOf(atoms)))))
  {
    hide AtomView, SortByIndex;
    var sorted := SortAtoms(atoms);
    ghost var data := DataOf(sorted);
    var views: seq<Json> := [];
    for i := 0 to |sorted|
      invariant |views| == i && forall k :: 0 <= k < i ==> views[k] == AtomView(data[k])
    {
      views := views + [AtomView(sorted[i].Data())];
    }
    assert views == AtomViews(data);
    view := JArr(views);
  }

  // ---------------------------------------------------------------- fragments

  /** The first i atoms have their pieces, the others are as before. */
  ghost predicate Written(atoms: seq<Atom>, before: seq<AtomData>, after: seq<AtomData>, i: nat)
    requires |before| == |after| == |atoms|
    reads atoms
  {
    (forall k :: 0 <= k < i && k < |atoms| ==> atoms[k].Data() == after[k]) &&
    (forall k :: i <= k < |atoms| ==> atoms[k].Data() == before[k])
  }

  method SetFragment(atom: Atom, piece: string, ghost atoms: seq<Atom>, ghost i: nat, ghost before: seq<AtomData>,
                     ghost after: seq<AtomData>)
    requires Distinct(atoms) && i < |atoms| && atoms[i] == atom
    requires |before| == |after| == |atoms| && Written(atoms, before, after, i)
    requires after[i] == before[i].(otsFragment := Some(piece))
    modifies atom`otsFragment
    ensures Written(atoms, before, after, i + 1)
  {
    atom.otsFragment := Some(piece);
  }

  /** The distribution loop of sign(): it stops at the first atom no character is left for. */
  method DistributeSignature(atoms: seq<Atom>, sig: string)
    requires Distinct(atoms) && atoms != []
    modifies (set a <- atoms)`otsFragment
    ensures DataOf(atoms) == WithFragments(old(DataOf(atoms)), Distributed(sig, FragmentsOf(old(DataOf(atoms)))))
  {
    var size := PieceSize(|sig|, |atoms|);
    ghost var before := DataOf(atoms);
    ghost var after := WithFragments(before, Distributed(sig, FragmentsOf(before)));
    DistributedPieces(sig, size, before, after);
    hide Distributed, FragmentAt, PieceSize, WithFragments, Written, StartOf;
    var i := 0;
    var start := 0;
    NothingWritten(atoms, before, after);
    NextStart(0, size);
    while i < |atoms| && start < |sig|
      invariant 0 <= i <= |atoms| && start == StartOf(i, size)
      invariant Written(atoms, before, after, i)
      decreases |atoms| - i
    {
      var len := if start + size > |sig| then |sig| - start else size;
      PieceAt(sig, size, i, before[i].otsFragment);
      SetFragment(atoms[i], sig[start..start + len], atoms, i, before, after);
      NextStart(i, size);
      start := start + size;
      i := i + 1;
    }
    forall k | i <= k < |atoms| ensures after[k] == before[k] {
      LaterStart(i, k, size);
      PieceAt(sig, size, k, before[k].otsFragment);
    }
    AllWritten(atoms, before, after, i);
  }

  lemma {:induction false} NothingWritten(atoms: seq<Atom>, before: seq<AtomData>, after: seq<AtomData>)
    requires before == DataOf(atoms) && |after| == |atoms|
    ensures Written(atoms, before, after, 0)
  {
  }

  lemma {:induction false} AllWritten(atoms: seq<Atom>, before: seq<AtomData>, after: seq<AtomData>, i: nat)
    requires |before| == |after| == |atoms| && Written(atoms, before, after, i)
    requires forall k :: i <= k < |atoms| ==> after[k] == before[k]
    ensures DataOf(atoms) == after
  {
  }

  lemma {:induction false} DistributedPieces(sig: string, size: nat, before: seq<AtomData>, after: seq<AtomData>)
    requires before != [] && size == PieceSize(|sig|, |before|)
    requires after == WithFragments(before, Distributed(sig, FragmentsOf(before)))
    ensures forall k :: 0 <= k < |before| ==>
              after[k] == before[k].(otsFragment := FragmentAt(sig, size, k, before[k].otsFragment))
  {
  }

  /** Where piece i starts. */
  function StartOf(i: nat, size: nat): nat {
    i * size
  }

  lemma {:induction false} NextStart(i: nat, size: nat)
    ensures StartOf(0, size) == 0 && StartOf(i + 1, size) == StartOf(i, size) + size
  {
  }

  lemma {:induction false} PieceAt(sig: string, size: nat, i: nat, before: Text)
    ensures var start := StartOf(i, size);
            FragmentAt(sig, size, i, before)
            == if start >= |sig| then before
               else Some(sig[start..start + (if start + size > |sig| then |sig| - start else size)])
  {
  }

  lemma {:induction false} LaterStart(i: nat, k: nat, size: nat)
    requires i <= k
    ensures StartOf(i, size) <= StartOf(k, size)
  {
  }

  /** The verifier's first pass over the fragments: how much room they need. */
  method MeasureFragments(atoms: seq<Atom>) returns (otsLen: nat)
    ensures otsLen == |Rebuilt(FragmentsOf(DataOf(atoms)))|
  {
    otsLen := 0;
    ghost var f := FragmentsOf(DataOf(atoms));
    for i := 0 to |atoms|
      invariant otsLen == |Rebuilt(f[..i])|
    {
      assert f[..i + 1][..i] == f[..i];
      if atoms[i].otsFragment.Some? {
        otsLen := otsLen + |atoms[i].otsFragment.value|;
      }
    }
    assert f[..|atoms|] == f;
  }

  /** The verifier's two passes over the fragments: measure, then copy. */
  method RebuildSignature(atoms: seq<Atom>) returns (ots: string)
    ensures ots == Rebuilt(FragmentsOf(DataOf(atoms)))
  {
    hide Rebuilt, FragmentsOf, DataOf;
    var otsLen := MeasureFragments(atoms);
    var buffer := new char[otsLen + 1](_ => NUL);
    ghost var f := FragmentsOf(DataOf(atoms));
    var used := 0;
    RebuiltPart(f, 0);
    assert |f| == |atoms|;
    for i := 0 to |atoms|
      invariant FragmentsOf(DataOf(atoms)) == f
      invariant 0 <= used <= otsLen && buffer[..used] == Rebuilt(f[..i])
    {
      RebuiltPart(f, i);
      RebuiltPart(f, i + 1);
      FragmentAtPlace(atoms, i);
      if atoms[i].otsFragment.Some? {
        used := CopyFragment(buffer, used, atoms[i].otsFragment.value);
      }
    }
    assert f[..|atoms|] == f;
    return buffer[..used];
  }

  lemma {:induction false} FragmentAtPlace(atoms: seq<Atom>, i: nat)
    requires i < |atoms|
    ensures FragmentsOf(DataOf(atoms))[i] == atoms[i].otsFragment
  {
  }

  /** Puts a fragment behind what the buffer holds, and the terminator behind it. */
  method CopyFragment(buffer: array<char>, at: nat, fragment: string) returns (used: nat)
    requires at + |fragment| < buffer.Length
    modifies buffer
    ensures used == at + |fragment| && buffer[..used] == old(buffer[..at]) + fragment && buffer[used] == NUL
  {
    forall k | 0 <= k < |fragment| {
      buffer[at + k] := fragment[k];
    }
    used := at + |fragment|;
    buffer[used] := NUL;
  }

  /** The rebuilt text up to fragment i, and with it: never longer than the whole. */
  lemma {:induction false} RebuiltPart(fragments: seq<Text>, i: nat)
    requires i <= |fragments|
    ensures i == 0 ==> Rebuilt(fragments[..i]) == ""
    ensures i < |fragments| ==> Rebuilt(fragments[..i + 1]) == Rebuilt(fragments[..i]) + OrEmpty(fragments[i])
    ensures |Rebuilt(fragments[..i])| <= |Rebuilt(fragments)|
  {
    RebuiltConcat(fragments[..i], fragments[i..]);
    TakeDrop(fragments, i);
    if i < |fragments| {
      TakeOne(fragments, i);
      RebuiltSnoc(fragments[..i], fragments[i]);
    }
  }

  // ---------------------------------------------------------------- steps of sign and check

  /** Signature of a key: chunk it, normalise the hash, run the chains 8 - n[i] steps. */
  method ComputeSignature(c: Crypto, kcore: Kcore, key: string, hash: string) returns (sig: string)
    requires c.Valid() && Honest(c, kcore) && IsKeyLength(|key|) && IsNumeral(16, key) && IsSignable(hash)
    ensures sig == Signature(c, key, hash)
  {
    hide Advanced, Normalized, Enumerated;
    var chunked, keyChunks := ChunkString(key, CHUNK);
    var chunkCount := |keyChunks|;
    var error, enumerated := EnumerateHash(Some(hash));
    var normError, normalized := NormalizeHash(enumerated);
    assert normalized[..] == NormalizedHash(hash);
    var counts := new int[chunkCount];
    for i := 0 to chunkCount
      invariant normalized[..] == NormalizedHash(hash)
      invariant forall k :: 0 <= k < i ==> counts[k] == StepsToSign(hash, k)
    {
      counts[i] := 8 - normalized[i];
    }
    assert counts[..] == SignCounts(hash, chunkCount);
    assert counts[..chunkCount] == counts[..];
    var fragments := new char[chunkCount * CHUNK + 1](_ => NUL);
    NumeralHasNoNul(16, key);
    AdvanceChains(c, kcore, key, chunkCount, counts, fragments);
    sig := ReadCString(fragments);
  }

  /** strlen and copy. */
  method ReadCString(buf: array<char>) returns (s: string)
    ensures s == CString(buf[..])
  {
    var n := 0;
    while n < buf.Length && buf[n] != NUL
      invariant 0 <= n <= buf.Length
      invariant CString(buf[..]) == buf[..n] + CString(buf[n..])
    {
      assert buf[n..] == [buf[n]] + buf[n + 1..];
      assert buf[..n + 1] == buf[..n] + [buf[n]];
      n := n + 1;
    }
    s := buf[..n];
    assert CString(buf[n..]) == "";
  }

  /** check_ots after the rebuild: the address the signature resolves to. */
  method ResolveSignature(c: Crypto, kcore: Kcore, sig: string, hash: string) returns (address: string)
    requires c.Valid() && Honest(c, kcore) && IsKeyLength(|sig|) && NUL !in sig && IsSignable(hash)
    ensures address == Resolved(c, sig, hash)
  {
    var error, enumerated := EnumerateHash(Some(hash));
    var normError, normalized := NormalizeHash(enumerated);
    assert normalized[..] == NormalizedHash(hash);
    var chunkCount := |sig| / CHUNK;
    var counts := new int[chunkCount];
    for i := 0 to chunkCount
      invariant normalized[..] == NormalizedHash(hash)
      invariant forall k :: 0 <= k < i ==> counts[k] == StepsToVerify(hash, k)
    {
      counts[i] := 8 + normalized[i];
    }
    assert counts[..] == VerifyCounts(hash, chunkCount);
    assert counts[..chunkCount] == counts[..];
    var keyFragments := new char[|sig| + 1](_ => NUL);
    AdvanceChains(c, kcore, sig, chunkCount, counts, keyFragments);
    var ends := ReadCString(keyFragments);
    address := c.shake(c.shake(ends, 8192), 256);
  }
}
