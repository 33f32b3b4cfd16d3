/**
 Enumeration and normalisation of a molecular hash (src/molecule.c:1101-1190).

 The round-robin loop is specified by its closed form: one shift of every entry by k
 passes, plus one more for the first p entries, clipped at 8 (or -8). At most one such
 shift sums to zero, so the form defines the result.
 */
module Normalize {
  import opened Basics
  import opened Digits
  import opened Base17

  const LIMIT := 8

  function Sum(s: seq<int>): int {
    if s == [] then 0 else Sum(s[..|s| - 1]) + s[|s| - 1]
  }

  /** x after m unit moves towards the limit; an entry at or past the limit stays. */
  function Move(x: int, up: bool, m: nat): int {
    if up then (if x >= LIMIT then x else if x + m > LIMIT then LIMIT else x + m)
    else (if x <= -LIMIT then x else if x - m < -LIMIT then -LIMIT else x - m)
  }

  function Moves(k: nat, p: nat, i: nat): nat {
    k + (if i < p then 1 else 0)
  }

  /** k full passes over s, then one move of each of the first p entries. */
  function Shifted(s: seq<int>, up: bool, k: nat, p: nat): (t: seq<int>)
    ensures |t| == |s|
  {
    seq(|s|, i requires 0 <= i < |s| => Move(s[i], up, Moves(k, p, i)))
  }

  ghost predicate IsShift(s: seq<int>, t: seq<int>, k: nat, p: nat) {
    p <= |s| && t == Shifted(s, Sum(s) < 0, k, p)
  }

  ghost predicate IsNormalForm(s: seq<int>, t: seq<int>) {
    Sum(t) == 0 && exists k: nat, p: nat :: IsShift(s, t, k, p)
  }

  ghost predicate InRange(s: seq<int>) {
    forall i :: 0 <= i < |s| ==> -LIMIT <= s[i] <= LIMIT
  }

  lemma {:induction false} SumUpdate(s: seq<int>, i: nat, v: int)
    requires i < |s|
    ensures Sum(s[i := v]) == Sum(s) + v - s[i]
  {
    var n := |s| - 1;
    if i == n {
      assert s[i := v][..n] == s[..n];
    } else {
      SumUpdate(s[..n], i, v);
      assert s[i := v][..n] == s[..n][i := v];
    }
  }

  /** A pointwise bound bounds the sum, and is an equality where the sums agree. */
  lemma {:induction false} SumMonotone(a: seq<int>, b: seq<int>)
    requires |a| == |b|
    requires forall i :: 0 <= i < |a| ==> a[i] <= b[i]
    ensures Sum(a) <= Sum(b)
    ensures Sum(a) == Sum(b) ==> a == b
  {
    if a != [] {
      var n := |a| - 1;
      SumMonotone(a[..n], b[..n]);
      assert a == a[..n] + [a[n]] && b == b[..n] + [b[n]];
    }
  }

  lemma {:induction false} SumOfConstant(n: nat, c: int)
    ensures Sum(seq(n, i => c)) == n * c
  {
    if n > 0 {
      SumOfConstant(n - 1, c);
      assert seq(n, i => c)[..n - 1] == seq(n - 1, i => c);
    }
  }

  /** Saturated entries cannot sum to the wrong side of zero, so an open total leaves a move. */
  lemma {:induction false} SaturatedSum(s: seq<int>, up: bool)
    requires s != []
    requires forall i :: 0 <= i < |s| ==> !HasRoom(s[i], up)
    ensures if up then Sum(s) > 0 else Sum(s) < 0
  {
    var c := if up then LIMIT else -LIMIT;
    SumOfConstant(|s|, c);
    if up {
      SumMonotone(seq(|s|, i => c), s);
    } else {
      SumMonotone(s, seq(|s|, i => c));
    }
  }

  lemma {:induction false} ShiftStep(s: seq<int>, up: bool, k: nat, p: nat)
    requires p < |s|
    ensures Shifted(s, up, k, p + 1) == Shifted(s, up, k, p)[p := Move(s[p], up, k + 1)]
    ensures Shifted(s, up, k, |s|) == Shifted(s, up, k + 1, 0)
  {
  }

  /** Shifting further moves no entry back. */
  lemma {:induction false} ShiftedMonotone(s: seq<int>, up: bool, k: nat, p: nat, k': nat, p': nat)
    requires p <= |s| && p' <= |s|
    requires k < k' || (k == k' && p <= p')
    ensures var a, b := Shifted(s, up, k, p), Shifted(s, up, k', p');
            forall i :: 0 <= i < |s| ==> if up then a[i] <= b[i] else b[i] <= a[i]
  {
    forall i | 0 <= i < |s| ensures Moves(k, p, i) <= Moves(k', p', i) {
    }
  }

  lemma {:induction false} NormalFormUnique(s: seq<int>, t: seq<int>, u: seq<int>)
    requires IsNormalForm(s, t) && IsNormalForm(s, u)
    ensures t == u
  {
    var up := Sum(s) < 0;
    var k: nat, p: nat :| IsShift(s, t, k, p);
    var k': nat, p': nat :| IsShift(s, u, k', p');
    if k < k' || (k == k' && p <= p') {
      ShiftedMonotone(s, up, k, p, k', p');
    } else {
      ShiftedMonotone(s, up, k', p', k, p);
    }
    if forall i :: 0 <= i < |s| ==> t[i] <= u[i] {
      SumMonotone(t, u);
    } else {
      SumMonotone(u, t);
    }
  }

  /** Distance of x from the limit it moves to. */
  function Room(x: int, up: bool): nat {
    if up then (if x >= LIMIT then 0 else LIMIT - x) else (if x <= -LIMIT then 0 else x + LIMIT)
  }

  function MaxRoom(s: seq<int>, up: bool): (r: nat)
    ensures forall i :: 0 <= i < |s| ==> Room(s[i], up) <= r
  {
    if s == [] then 0
    else
      var r := MaxRoom(s[..|s| - 1], up);
      if Room(s[|s| - 1], up) > r then Room(s[|s| - 1], up) else r
  }

  /** Shifting on from an open total meets a zero sum before every entry is saturated. */
  lemma {:induction false} ShiftReachesZero(s: seq<int>, up: bool, k: nat, p: nat) returns (k': nat, p': nat)
    requires p < |s|
    requires var total := Sum(Shifted(s, up, k, p)); if up then total <= 0 else total >= 0
    ensures p' <= |s| && Sum(Shifted(s, up, k', p')) == 0
    decreases MaxRoom(s, up) + 1 - k, |s| - p
  {
    var here := Shifted(s, up, k, p);
    if Sum(here) == 0 {
      return k, p;
    }
    if k > MaxRoom(s, up) {
      SaturatedSum(here, up);
    }
    ShiftStep(s, up, k, p);
    SumUpdate(here, p, Move(s[p], up, k + 1));
    if p + 1 < |s| {
      k', p' := ShiftReachesZero(s, up, k, p + 1);
    } else {
      k', p' := ShiftReachesZero(s, up, k + 1, 0);
    }
  }

  lemma {:induction false} NormalFormExists(s: seq<int>)
    ensures exists t :: IsNormalForm(s, t)
  {
    if s == [] {
      assert IsShift(s, s, 0, 0);
      assert IsNormalForm(s, s);
    } else {
      var up := Sum(s) < 0;
      assert Shifted(s, up, 0, 0) == s;
      var k, p := ShiftReachesZero(s, up, 0, 0);
      assert IsShift(s, Shifted(s, up, k, p), k, p);
      assert IsNormalForm(s, Shifted(s, up, k, p));
    }
  }

  /** The normalised hash: the only zero-sum shift. */
  ghost function Normalized(s: seq<int>): (t: seq<int>)
    ensures IsNormalForm(s, t)
    ensures |t| == |s|
  {
    NormalFormExists(s);
    var t :| IsNormalForm(s, t);
    t
  }

  /** Zero sum, one direction only, range kept, and idempotent. */
  lemma {:induction false} NormalizedProperties(s: seq<int>)
    ensures Sum(Normalized(s)) == 0
    ensures forall i :: 0 <= i < |s| ==> if Sum(s) < 0 then s[i] <= Normalized(s)[i] else Normalized(s)[i] <= s[i]
    ensures InRange(s) ==> InRange(Normalized(s))
    ensures Normalized(Normalized(s)) == Normalized(s)
  {
    var t := Normalized(s);
    assert IsShift(t, t, 0, 0);
    NormalFormUnique(t, t, Normalized(t));
  }

  /** t is s raised (lowered) by k, its first p entries by one more, clipped at 8 (-8). */
  ghost predicate Clipped(s: seq<int>, t: seq<int>, k: nat, p: nat) {
    |t| == |s| && p <= |s| &&
    forall i :: 0 <= i < |s| ==>
      t[i] == if Sum(s) < 0 then Min(8, s[i] + Moves(k, p, i)) else -Min(8, -s[i] + Moves(k, p, i))
  }

  function Min(x: int, y: int): int {
    if x < y then x else y
  }

  /** In the range of enumerated hashes the closed form is a plain clipped shift. */
  lemma {:induction false} NormalizedClosedForm(s: seq<int>)
    requires InRange(s)
    ensures exists k: nat, p: nat :: Clipped(s, Normalized(s), k, p)
  {
    var k: nat, p: nat :| IsShift(s, Normalized(s), k, p);
    assert Clipped(s, Normalized(s), k, p);
  }

  /** Zero-sum vectors are an antichain: 8 - n[i] is pointwise at most 8 - m[i] only for n == m. */
  lemma {:induction false} NormalizedAntichain(s: seq<int>, t: seq<int>)
    requires |s| == |t|
    requires forall i :: 0 <= i < |s| ==> LIMIT - Normalized(s)[i] <= LIMIT - Normalized(t)[i]
    ensures Normalized(s) == Normalized(t)
  {
    SumMonotone(Normalized(t), Normalized(s));
  }

  predicate HasRoom(x: int, up: bool) {
    if up then x < LIMIT else x > -LIMIT
  }

  /** Moving entry p, if it has room, is the next shift; only a move changes the sum. */
  lemma {:induction false} MoveStep(s: seq<int>, up: bool, k: nat, p: nat)
    requires p < |s|
    ensures var before := Shifted(s, up, k, p);
            var unit := if !HasRoom(before[p], up) then 0 else if up then 1 else -1;
            var after := before[p := before[p] + unit];
            after == Shifted(s, up, k, p + 1) && Sum(after) == Sum(before) + unit
  {
    var before := Shifted(s, up, k, p);
    ShiftStep(s, up, k, p);
    SumUpdate(before, p, Move(s[p], up, k + 1));
    assert before[p] == Move(s[p], up, k);
  }

  lemma {:induction false} SumOfNone(s: seq<int>)
    ensures s == [] ==> Sum(s) == 0
  {
  }

  /** One round of the loop: a move per entry that has room, until the total is zero. */
  method NormalizePass(normalized: array<int>, start: int, up: bool, ghost s: seq<int>, ghost k: nat)
    returns (total: int, ghost p: nat)
    requires start != 0 && up == (start < 0)
    requires normalized[..] == Shifted(s, up, k, 0) && start == Sum(normalized[..])
    modifies normalized
    ensures if up then start < total <= 0 else 0 <= total < start
    ensures p <= |s| && (total != 0 ==> p == |s|)
    ensures normalized[..] == Shifted(s, up, k, p) && total == Sum(normalized[..])
  {
    hide Sum, Shifted;
    SumOfNone(normalized[..]);
    var n := normalized.Length;
    assert n == |s|;
    total := start;
    var i := 0;
    while i < n && total != 0
      invariant 0 <= i <= n
      invariant if up then start <= total <= 0 else start >= total >= 0
      invariant total == Sum(normalized[..])
      invariant normalized[..] == Shifted(s, up, k, i)
      invariant total == start ==> forall j :: 0 <= j < i ==> !HasRoom(normalized[j], up)
    {
      ghost var before := normalized[..];
      MoveStep(s, up, k, i);
      if HasRoom(normalized[i], up) {
        if up {
          normalized[i] := normalized[i] + 1;
          total := total + 1;
        } else {
          normalized[i] := normalized[i] - 1;
          total := total - 1;
        }
      }
      assert normalized[..] == before[i := normalized[i]];
      i := i + 1;
    }
    if total == start {
      SaturatedSum(normalized[..], up);
    }
    p := i;
  }

  /** knishio_molecule_normalize_hash: rounds of moves until the total is zero. */
  method NormalizeHash(enumerated: array<int>) returns (error: Error, normalized: array<int>)
    ensures error == if enumerated.Length == 0 then InvalidArgs else Ok
    ensures fresh(normalized)
    ensures error == Ok ==> normalized[..] == Normalized(enumerated[..])
  {
    var n := enumerated.Length;
    normalized := new int[n];
    if n == 0 {
      return InvalidArgs, normalized;
    }
    forall i | 0 <= i < n { normalized[i] := enumerated[i]; }
    ghost var s := enumerated[..];
    var total := 0;
    for i := 0 to n
      invariant total == Sum(s[..i])
    {
      total := total + normalized[i];
      assert s[..i + 1][..i] == s[..i];
    }
    assert s[..n] == s && normalized[..] == s;
    var totalCondition := total < 0;
    ghost var k: nat, p: nat := 0, 0;
    assert s == Shifted(s, totalCondition, 0, 0);
    while total != 0
      invariant total != 0 ==> p == 0 && totalCondition == (total < 0)
      invariant p <= n && total == Sum(normalized[..])
      invariant normalized[..] == Shifted(s, totalCondition, k, p)
      decreases if total < 0 then -total else total
    {
      total, p := NormalizePass(normalized, total, totalCondition, s, k);
      if total != 0 {
        ShiftStep(s, totalCondition, k, 0);
        k, p := k + 1, 0;
      }
    }
    assert IsShift(s, normalized[..], k, p);
    NormalFormUnique(s, normalized[..], Normalized(s));
    error := Ok;
  }

  /** knishio_molecule_enumerate_hash on one character: '0'..'9', 'a'..'g' are -8..8. */
  function Enumerated(hash: string): (s: seq<int>)
    ensures |s| == |hash|
  {
    seq(|hash|, i requires 0 <= i < |hash| => DigitOf(hash[i]) - LIMIT)
  }

  /** knishio_molecule_enumerate_hash: refuses exactly the hashes that are not signable. */
  method EnumerateHash(hash: Text) returns (error: Error, enumerated: array<int>)
    ensures fresh(enumerated)
    ensures error == if hash.Some? && IsSignable(hash.value) then Ok else InvalidArgs
    ensures error == Ok ==> enumerated[..] == Enumerated(hash.value) && InRange(enumerated[..])
  {
    enumerated := new int[HASH_LENGTH];
    if hash.None? || |hash.value| != HASH_LENGTH {
      return InvalidArgs, enumerated;
    }
    for i := 0 to HASH_LENGTH
      invariant forall j :: 0 <= j < i ==> DigitOf(hash.value[j]) < 17
      invariant forall j :: 0 <= j < i ==> enumerated[j] == Enumerated(hash.value)[j]
    {
      var c := hash.value[i];
      if '0' <= c <= '9' {
        enumerated[i] := (c - '0') as int - 8;
      } else if 'a' <= c <= 'f' {
        enumerated[i] := (c - 'a') as int + 2;
      } else if c == 'g' {
        enumerated[i] := 8;
      } else {
        assert DigitOf(hash.value[i]) >= 17;
        return InvalidArgs, enumerated;
      }
    }
    assert enumerated[..] == Enumerated(hash.value);
    error := Ok;
  }

  /** Distinct signable hashes enumerate differently. */
  lemma {:induction false} EnumeratedInjective(hash: string, other: string)
    requires IsSignable(hash) && IsSignable(other)
    requires Enumerated(hash) == Enumerated(other)
    ensures hash == other
  {
    forall i | 0 <= i < HASH_LENGTH ensures hash[i] == other[i] {
      assert Enumerated(hash)[i] == Enumerated(other)[i];
      DigitCharUnique(hash[i], other[i]);
    }
  }

  /** The numbers run from -8 for '0' to 8 for 'g', in the order of the characters. */
  lemma {:induction false} EnumeratedOrder(hash: string, other: string, i: nat, j: nat)
    requires IsSignable(hash) && IsSignable(other) && i < HASH_LENGTH && j < HASH_LENGTH
    ensures -8 <= Enumerated(hash)[i] <= 8
    ensures Enumerated(hash)[i] == -8 <==> hash[i] == '0'
    ensures Enumerated(hash)[i] == 8 <==> hash[i] == 'g'
    ensures Enumerated(hash)[i] < Enumerated(other)[j] <==> hash[i] < other[j]
  {
    assert DigitOf(hash[i]) < 17 && DigitOf(other[j]) < 17;
  }
}
