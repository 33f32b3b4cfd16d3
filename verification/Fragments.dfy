/**
 A signature cut over the atoms by ceiling division and put back together
 (src/molecule.c:525-566, src/libraries/check_molecule.c:228-254).
 */
module Fragments {
  import opened Basics
  import opened ChainRunner

  function PieceSize(sigLen: nat, atomCount: nat): nat
    requires atomCount > 0
  {
    (sigLen + atomCount - 1) / atomCount
  }

  /** The fragment atom i holds afterwards: its piece, or what it held before when none is left. */
  function FragmentAt(sig: string, size: nat, i: nat, before: Text): Text {
    var start := i * size;
    if start >= |sig| then before
    else Some(sig[start..if start + size > |sig| then |sig| else start + size])
  }

  function Cut(sig: string, size: nat, before: seq<Text>): (fragments: seq<Text>)
    ensures |fragments| == |before|
  {
    seq(|before|, i requires 0 <= i < |before| => FragmentAt(sig, size, i, before[i]))
  }

  /** The fragments after signing. */
  function Distributed(sig: string, before: seq<Text>): (fragments: seq<Text>)
    requires before != []
    ensures |fragments| == |before|
  {
    Cut(sig, PieceSize(|sig|, |before|), before)
  }

  /** The verifier's concatenation; a missing fragment contributes nothing. */
  function Rebuilt(fragments: seq<Text>): string {
    if fragments == [] then "" else Rebuilt(fragments[..|fragments| - 1]) + OrEmpty(fragments[|fragments| - 1])
  }

  /** The first `at` characters, or all of them. */
  function Upto(sig: string, at: nat): string {
    if at >= |sig| then sig else sig[..at]
  }

  lemma {:induction false} UptoStep(sig: string, start: nat, size: nat, before: Text, i: nat)
    requires start == i * size && start < |sig|
    ensures Upto(sig, start) + OrEmpty(FragmentAt(sig, size, i, before)) == Upto(sig, start + size)
  {
  }

  lemma {:induction false} RebuiltPrefix(sig: string, size: nat, before: seq<Text>, i: nat)
    requires i <= |before|
    requires i > 0 ==> (i - 1) * size < |sig|
    ensures Rebuilt(Cut(sig, size, before)[..i]) == Upto(sig, i * size)
  {
    var d := Cut(sig, size, before);
    hide FragmentAt;
    if i == 0 {
      assert Upto(sig, 0) == "" && d[..0] == [];
    } else {
      hide Upto, Rebuilt;
      NextMultiple(i - 1, size);
      if i > 1 {
        NextMultiple(i - 2, size);
      }
      RebuiltPrefix(sig, size, before, i - 1);
      UptoStep(sig, (i - 1) * size, size, before[i - 1], i - 1);
      TakeOne(d, i - 1);
      RebuiltSnoc(d[..i - 1], d[i - 1]);
    }
  }

  lemma {:induction false} RebuiltSnoc(fragments: seq<Text>, last: Text)
    ensures Rebuilt(fragments + [last]) == Rebuilt(fragments) + OrEmpty(last)
  {
    assert (fragments + [last])[..|fragments|] == fragments;
  }

  /** Atoms past the last piece, which keep what they held. */
  function UsedAtoms(len: nat, size: nat, n: nat): (used: nat)
    ensures used <= n
    ensures forall i :: 0 <= i < n && i * size < len ==> i < used
    ensures forall i :: 0 <= i < used ==> i * size < len
  {
    if n == 0 then 0
    else if (n - 1) * size < len then
      assert forall i :: 0 <= i < n ==> i * size <= (n - 1) * size;
      n
    else UsedAtoms(len, size, n - 1)
  }

  lemma {:induction false} RebuiltConcat(a: seq<Text>, b: seq<Text>)
    ensures Rebuilt(a + b) == Rebuilt(a) + Rebuilt(b)
  {
    if b == [] {
      assert a + b == a;
    } else {
      hide Rebuilt;
      var front, last := b[..|b| - 1], b[|b| - 1];
      RebuiltConcat(a, front);
      RebuiltSnoc(a + front, last);
      RebuiltSnoc(front, last);
      TakeOne(b, |front|);
      Associate(a, front, [last]);
      Associate(Rebuilt(a), Rebuilt(front), OrEmpty(last));
      assert b[..|b|] == b;
    }
  }

  lemma {:induction false} UsedCovers(len: nat, size: nat, n: nat, i: nat)
    requires n * size >= len && UsedAtoms(len, size, n) <= i <= n
    ensures i * size >= len
  {
  }

  /** The first k pieces are all of the text, and fewer are not. */
  lemma {:induction false} UsedIs(len: nat, size: nat, n: nat, k: nat)
    requires 0 < k <= n && (k - 1) * size < len <= k * size
    ensures UsedAtoms(len, size, n) == k
  {
  }

  lemma {:induction false} RebuiltCut(sig: string, size: nat, before: seq<Text>)
    requires |before| * size >= |sig|
    ensures var used := UsedAtoms(|sig|, size, |before|);
            Rebuilt(Cut(sig, size, before)) == sig + Rebuilt(before[used..])
  {
    hide Rebuilt, Cut, Upto;
    var d, used := Cut(sig, size, before), UsedAtoms(|sig|, size, |before|);
    RebuiltUsed(sig, size, before, used);
    CutTail(sig, size, before, used);
    RebuiltConcat(d[..used], d[used..]);
    TakeDrop(d, used);
  }

  lemma {:induction false} RebuiltUsed(sig: string, size: nat, before: seq<Text>, used: nat)
    requires |before| * size >= |sig| && used == UsedAtoms(|sig|, size, |before|)
    ensures Rebuilt(Cut(sig, size, before)[..used]) == sig
  {
    hide Rebuilt, Cut;
    RebuiltPrefix(sig, size, before, used);
    UsedCovers(|sig|, size, |before|, used);
  }

  lemma {:induction false} CutTail(sig: string, size: nat, before: seq<Text>, used: nat)
    requires |before| * size >= |sig| && used == UsedAtoms(|sig|, size, |before|)
    ensures Cut(sig, size, before)[used..] == before[used..]
  {
    var d := Cut(sig, size, before);
    forall i | used <= i < |before| ensures d[i] == before[i] {
      UsedCovers(|sig|, size, |before|, i);
    }
  }

  /** What the atoms past the last piece held before a text of this length was cut. */
  function StaleText(len: nat, before: seq<Text>): string
    requires before != []
  {
    Rebuilt(before[UsedAtoms(len, PieceSize(len, |before|), |before|)..])
  }

  /** The verifier reads the signature, followed by whatever the atoms past it held before. */
  lemma {:induction false} RebuiltDistributed(sig: string, before: seq<Text>)
    requires before != []
    ensures Rebuilt(Distributed(sig, before)) == sig + StaleText(|sig|, before)
  {
    CeilingQuotient(|sig|, |before|);
    RebuiltCut(sig, PieceSize(|sig|, |before|), before);
  }

  lemma {:induction false} CeilingQuotient(len: nat, count: nat)
    requires count > 0
    ensures count * PieceSize(len, count) >= len
  {
  }

  predicate NoFragments(fragments: seq<Text>) {
    forall i :: 0 <= i < |fragments| ==> OrEmpty(fragments[i]) == ""
  }

  lemma {:induction false} RebuiltEmpty(fragments: seq<Text>)
    ensures Rebuilt(fragments) == "" <==> NoFragments(fragments)
  {
    if fragments != [] {
      var front, last := fragments[..|fragments| - 1], fragments[|fragments| - 1];
      RebuiltEmpty(front);
      assert NoFragments(fragments) <==> NoFragments(front) && OrEmpty(last) == "" by {
        assert forall i :: 0 <= i < |front| ==> front[i] == fragments[i];
      }
    }
  }

  /** No atom past the last piece holds an earlier fragment. */
  predicate NoStale(len: nat, before: seq<Text>)
    requires before != []
  {
    NoFragments(before[UsedAtoms(len, PieceSize(len, |before|), |before|)..])
  }

  lemma {:induction false} NothingStale(len: nat, before: seq<Text>)
    requires before != []
    ensures StaleText(len, before) == "" <==> NoStale(len, before)
    ensures NoFragments(before) ==> NoStale(len, before)
  {
    RebuiltEmpty(before[UsedAtoms(len, PieceSize(len, |before|), |before|)..]);
  }

  /** The fragments give the signature back exactly when none is stale. */
  lemma {:induction false} FragmentRoundTrip(sig: string, before: seq<Text>)
    requires before != []
    ensures Rebuilt(Distributed(sig, before)) == sig <==> NoStale(|sig|, before)
    ensures NoFragments(before) ==> NoStale(|sig|, before)
  {
    RebuiltDistributed(sig, before);
    NothingStale(|sig|, before);
    AppendsNothing(sig, StaleText(|sig|, before));
  }

  lemma {:induction false} AppendsNothing(s: string, t: string)
    ensures s + t == s <==> t == ""
  {
    assert |s + t| == |s| + |t|;
    assert s + "" == s;
  }

  /** Signing 90 atoms with 1368 characters after 2048 leaves 70 stale characters in the last four. */
  lemma {:induction false} StaleFragments(sig: string, other: string, before: seq<Text>)
    requires |sig| == 1368 && |other| == 2048 && |before| == 90
    ensures |StaleText(1368, Distributed(other, before))| == 70
    ensures Rebuilt(Distributed(sig, Distributed(other, before))) != sig
  {
    var stale := Distributed(other, before);
    RebuiltDistributed(sig, stale);
    assert PieceSize(1368, 90) == 16 && PieceSize(2048, 90) == 23;
    UsedIs(1368, 16, 90, 86);
    assert stale[86] == FragmentAt(other, 23, 86, before[86]) && stale[87] == FragmentAt(other, 23, 87, before[87]);
    assert stale[88] == FragmentAt(other, 23, 88, before[88]) && stale[89] == FragmentAt(other, 23, 89, before[89]);
    LastFour(stale, 86);
  }

  lemma {:induction false} LastFour(fragments: seq<Text>, i: nat)
    requires |fragments| == i + 4
    ensures |Rebuilt(fragments[i..])| == |OrEmpty(fragments[i])| + |OrEmpty(fragments[i + 1])| +
                                         |OrEmpty(fragments[i + 2])| + |OrEmpty(fragments[i + 3])|
  {
    hide Rebuilt;
    var a, b, c, d := fragments[i], fragments[i + 1], fragments[i + 2], fragments[i + 3];
    RebuiltSnoc([], a);
    RebuiltSnoc([a], b);
    RebuiltSnoc([a, b], c);
    RebuiltSnoc([a, b, c], d);
    RebuiltEmpty([]);
    assert [] + [a] == [a] && [a] + [b] == [a, b] && [a, b] + [c] == [a, b, c];
    assert fragments[i..] == [a, b, c] + [d];
  }

  /** Signing 47 atoms so leaves 24, in the last one. */
  lemma {:induction false} StaleQuads(other: string, before: seq<Text>)
    requires |other| == 2048 && |before| == 47
    ensures |StaleText(1368, Distributed(other, before))| == 24
  {
    var stale := Distributed(other, before);
    assert PieceSize(1368, 47) == 30 && PieceSize(2048, 47) == 44;
    UsedIs(1368, 30, 47, 46);
    assert |OrEmpty(stale[46])| == 24;
    LastOne(stale, 46);
  }

  lemma {:induction false} LastOne(fragments: seq<Text>, i: nat)
    requires |fragments| == i + 1
    ensures |Rebuilt(fragments[i..])| == |OrEmpty(fragments[i])|
  {
    RebuiltSnoc([], fragments[i]);
    assert [] + [fragments[i]] == fragments[i..] && Rebuilt([]) == "";
  }
}
