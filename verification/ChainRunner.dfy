/**
 Running the chains: the optional kcore fast path with its guard
 (src/kcore_bridge.h:26-68), the SDK's own loop, and the address of a key. With kcore
 linked, absent, failing or refused by the guard, the result is the same.
 */
module ChainRunner {
  import opened Basics
  import opened Digits
  import opened Chains
  import Base17

  const MAX_CHUNKS: nat := 64

  /** The optional backend. A call fails (None) or answers. */
  datatype Kcore = NotLinked | Linked(chains: (string, seq<int>) -> Text, address: string -> Text)

  predicate Eligible(src: string, counts: seq<int>) {
    1 <= |counts| <= MAX_CHUNKS && |src| == CHUNK * |counts| && IsNumeral(16, src) &&
    forall i :: 0 <= i < |counts| ==> 0 <= counts[i] <= 64
  }

  predicate IsKeyLength(n: int) {
    n == CHUNK * V1_CHAINS || n == CHUNK * V2_CHAINS
  }

  /** What the SDK relies on: on eligible input an answer is the right one. */
  ghost predicate Honest(c: Crypto, kcore: Kcore) {
    kcore.Linked? ==>
      (forall src: string, counts: seq<int> {:trigger kcore.chains(src, counts)} ::
         Eligible(src, counts) && kcore.chains(src, counts).Some?
         ==> kcore.chains(src, counts).value == Advanced(c, src, counts)) &&
      (forall key: string {:trigger kcore.address(key)} ::
         IsKeyLength(|key|) && IsNumeral(16, key) && kcore.address(key).Some?
         ==> kcore.address(key).value == Address(c, key))
  }

  /** The C string at the start of a buffer. */
  function CString(buf: seq<char>): string {
    if buf == [] || buf[0] == NUL then "" else [buf[0]] + CString(buf[1..])
  }

  lemma {:induction false} CStringUpTo(buf: seq<char>, n: nat)
    requires n < |buf| && buf[n] == NUL && NUL !in buf[..n]
    ensures CString(buf) == buf[..n]
  {
    if n > 0 {
      assert buf[0] == buf[..n][0];
      assert buf[1..][..n - 1] == buf[..n][1..];
      CStringUpTo(buf[1..], n - 1);
      assert buf[..n] == [buf[0]] + buf[1..][..n - 1];
    }
  }

  /** strlen: the place of the terminator. */
  method FindEnd(buf: array<char>) returns (n: nat)
    requires NUL in buf[..]
    ensures n < buf.Length && buf[n] == NUL && NUL !in buf[..n]
  {
    ghost var end :| 0 <= end < buf.Length && buf[end] == NUL;
    n := 0;
    while buf[n] != NUL
      invariant n <= end && forall k :: 0 <= k < n ==> buf[k] != NUL
      decreases end - n
    {
      n := n + 1;
    }
  }

  /** strcat: appends at the terminator. */
  method Strcat(buf: array<char>, s: string)
    requires NUL in buf[..] && NUL !in s
    requires |CString(buf[..])| + |s| < buf.Length
    modifies buf
    ensures CString(buf[..]) == old(CString(buf[..])) + s && NUL in buf[..]
  {
    ghost var was := buf[..];
    var n := FindEnd(buf);
    CStringUpTo(was, n);
    for i := 0 to |s|
      invariant forall k :: 0 <= k < n ==> buf[k] == was[k]
      invariant forall k :: 0 <= k < i ==> buf[n + k] == s[k]
    {
      buf[n + i] := s[i];
    }
    buf[n + |s|] := NUL;
    assert buf[..n + |s|] == was[..n] + s;
    CStringUpTo(buf[..], n + |s|);
    assert buf[..][n + |s|] == NUL;
  }

  /** knishio_kcore_is_lower_hex. */
  method IsLowerHex(s: string, n: nat) returns (lower: bool)
    requires n <= |s|
    ensures lower <==> IsNumeral(16, s[..n])
  {
    for i := 0 to n
      invariant forall j :: 0 <= j < i ==> DigitOf(s[j]) < 16
    {
      var ch := s[i];
      if !('0' <= ch <= '9' || 'a' <= ch <= 'f') {
        assert DigitOf(s[..n][i]) >= 16;
        return false;
      }
    }
    return true;
  }

  /** knishio_kcore_wots_chains: a guard refusal leaves the buffer alone, a failure zeroes it. */
  method WotsChains(c: Crypto, kcore: Kcore, src: string, n: nat, counts: array<int>, out: array<char>)
    returns (ok: bool)
    requires c.Valid() && kcore.Linked? && Honest(c, kcore)
    requires n <= counts.Length && CHUNK * n < out.Length
    modifies out
    ensures ok <==> Eligible(src, counts[..n]) && kcore.chains(src, counts[..n]).Some?
    ensures ok ==> CString(out[..]) == Advanced(c, src, counts[..n])
    ensures !ok && !Eligible(src, counts[..n]) ==> out[..] == old(out[..])
    ensures !ok && Eligible(src, counts[..n]) ==>
              (forall i :: 0 <= i <= CHUNK * n ==> out[i] == NUL) && out[CHUNK * n + 1..] == old(out[CHUNK * n + 1..])
  {
    if n == 0 || n > MAX_CHUNKS {
      return false;
    }
    var hexLen := CHUNK * n;
    if |src| != hexLen {
      return false;
    }
    var lower := IsLowerHex(src, hexLen);
    assert src[..hexLen] == src;
    if !lower {
      return false;
    }
    for i := 0 to n
      invariant forall j :: 0 <= j < i ==> 0 <= counts[j] <= 64
    {
      if counts[i] < 0 || counts[i] > 64 {
        assert counts[..n][i] == counts[i];
        return false;
      }
    }
    var steps := counts[..n];
    assert Eligible(src, steps);
    var chained := kcore.chains(src, steps);
    forall i | 0 <= i < hexLen { out[i] := src[i]; }
    out[hexLen] := NUL;
    if chained.None? {
      forall i | 0 <= i <= hexLen { out[i] := NUL; }
      assert counts[..n] == steps;
      return false;
    }
    assert chained.value == Advanced(c, src, steps);
    AdvancedShape(c, src, steps);
    NumeralHasNoNul(16, chained.value);
    forall i | 0 <= i < hexLen { out[i] := chained.value[i]; }
    assert out[..hexLen] == chained.value;
    CStringUpTo(out[..], hexLen);
    assert counts[..n] == steps;
    return true;
  }

  /** The hashing loop of one chain; a negative count does nothing. */
  method RunChain(c: Crypto, chunk: string, iterations: int) returns (working: string)
    ensures working == Advance(c, chunk, if iterations < 0 then 0 else iterations)
  {
    working := chunk;
    var iter := 0;
    while iter < iterations
      invariant 0 <= iter && (iter <= iterations || iter == 0)
      invariant working == Advance(c, chunk, iter)
    {
      AdvanceSucc(c, chunk, iter);
      working := c.shake(working, 512);
      iter := iter + 1;
    }
  }

  /** All chains of a key or signature: kcore if it takes them, otherwise the loop. */
  method AdvanceChains(c: Crypto, kcore: Kcore, src: string, n: nat, counts: array<int>, out: array<char>)
    requires c.Valid() && Honest(c, kcore)
    requires |src| == CHUNK * n && NUL !in src
    requires n <= counts.Length && forall i :: 0 <= i < n ==> counts[i] >= 0
    requires CHUNK * n < out.Length && out[0] == NUL
    modifies out
    ensures CString(out[..]) == Advanced(c, src, counts[..n])
  {
    var chainsDone := false;
    if kcore.Linked? {
      chainsDone := WotsChains(c, kcore, src, n, counts, out);
    }
    if chainsDone {
      return;
    }
    assert out[..][0] == NUL;
    assert src[..CHUNK * 0] == "" && counts[..0] == [];
    for i := 0 to n
      invariant NUL in out[..] && CString(out[..]) == Advanced(c, src[..CHUNK * i], counts[..i])
    {
      var chunk := src[CHUNK * i..CHUNK * (i + 1)];
      var working := RunChain(c, chunk, counts[i]);
      AdvanceShape(c, chunk, counts[i]);
      AdvancedShape(c, src[..CHUNK * i], counts[..i]);
      ghost var front, upto := src[..CHUNK * (i + 1)], counts[..i + 1];
      assert front[..CHUNK * i] == src[..CHUNK * i] && front[CHUNK * i..] == chunk;
      assert upto[..i] == counts[..i] && upto[i] == counts[i];
      Strcat(out, working);
    }
    assert src[..CHUNK * n] == src;
  }

  /** The eligibility guard never refuses the counts of a signable hash. */
  lemma {:induction false} SignableCountsEligible(key: string, hash: string, counts: seq<int>)
    requires IsKeyLength(|key|) && IsNumeral(16, key) && Base17.IsSignable(hash)
    requires counts == SignCounts(hash, |key| / CHUNK) || counts == VerifyCounts(hash, |key| / CHUNK)
    ensures Eligible(key, counts)
  {
    assert |counts| == |key| / CHUNK;
    assert forall i :: 0 <= i < |counts| ==> 0 <= counts[i] <= 16;
  }

  function Concat(chunks: seq<string>): string {
    if chunks == [] then "" else Concat(chunks[..|chunks| - 1]) + chunks[|chunks| - 1]
  }

  /** A text cut every chunkSize characters; only the last piece may be shorter. */
  ghost predicate IsChunking(input: string, chunkSize: nat, chunks: seq<string>) {
    Concat(chunks) == input &&
    (forall i :: 0 <= i < |chunks| - 1 ==> |chunks[i]| == chunkSize) &&
    (chunks != [] ==> 0 < |chunks[|chunks| - 1]| <= chunkSize)
  }

  lemma {:induction false} ConcatSnoc(chunks: seq<string>, chunk: string)
    ensures Concat(chunks + [chunk]) == Concat(chunks) + chunk
  {
    assert (chunks + [chunk])[..|chunks|] == chunks;
  }

  /** knishio_chunk_string. */
  method ChunkString(input: string, chunkSize: nat) returns (ok: bool, chunks: seq<string>)
    ensures ok <==> chunkSize != 0
    ensures ok ==> IsChunking(input, chunkSize, chunks)
    ensures ok && |input| % chunkSize == 0 ==> |chunks| * chunkSize == |input|
  {
    chunks := [];
    if chunkSize == 0 {
      return false, chunks;
    }
    var chunkCount := (|input| + chunkSize - 1) / chunkSize;
    CeilingDivision(|input|, chunkSize, chunkCount);
    var offset := 0;
    var i := 0;
    while i < chunkCount
      invariant |chunks| == i <= chunkCount && offset == i * chunkSize
      invariant IsChunking(input[..if offset <= |input| then offset else |input|], chunkSize, chunks)
      invariant offset <= |input| && i > 0 ==> |chunks[i - 1]| == chunkSize
      decreases chunkCount - i
    {
      LastChunkOffset(i, chunkCount, chunkSize, |input|);
      var len := if offset + chunkSize <= |input| then chunkSize else |input| - offset;
      ConcatSnoc(chunks, input[offset..offset + len]);
      assert input[..offset + len] == input[..offset] + input[offset..offset + len];
      chunks := chunks + [input[offset..offset + len]];
      NextMultiple(i, chunkSize);
      offset := offset + chunkSize;
      i := i + 1;
    }
    assert input[..|input|] == input;
    return true, chunks;
  }

  lemma {:induction false} NextMultiple(i: nat, size: nat)
    ensures (i + 1) * size == i * size + size
  {
  }

  lemma {:induction false} CeilingDivision(len: nat, size: nat, count: nat)
    requires size > 0 && count == (len + size - 1) / size
    ensures len <= count * size < len + size
    ensures len % size == 0 ==> count * size == len
  {
    if len % size == 0 {
      var q := len / size;
      assert len + size - 1 == q * size + (size - 1);
      DivModUnique(size, q, size - 1, len + size - 1);
    }
  }

  lemma {:induction false} LastChunkOffset(i: nat, count: nat, size: nat, len: nat)
    requires i < count && count * size < len + size
    ensures i * size < len
  {
    assert (i + 1) * size <= count * size;
  }

  lemma {:induction false} AdvancedNone(c: Crypto)
    ensures Advanced(c, "", []) == ""
  {
  }

  lemma {:induction false} AddressRound(c: Crypto, key: string, i: nat)
    requires CHUNK * (i + 1) <= |key|
    ensures Advanced(c, key[..CHUNK * (i + 1)], Repeat(i + 1, ADDRESS_ROUNDS))
         == Advanced(c, key[..CHUNK * i], Repeat(i, ADDRESS_ROUNDS))
            + Advance(c, key[CHUNK * i..CHUNK * (i + 1)], ADDRESS_ROUNDS)
  {
    hide Advance;
    var front := key[..CHUNK * (i + 1)];
    assert front[..CHUNK * i] == key[..CHUNK * i] && front[CHUNK * i..] == key[CHUNK * i..CHUNK * (i + 1)];
    assert Repeat(i + 1, ADDRESS_ROUNDS)[..i] == Repeat(i, ADDRESS_ROUNDS);
  }

  /** knishio_generate_address, with the kcore address entry points or the 16-round loop. */
  method GenerateAddress(c: Crypto, kcore: Kcore, key: string) returns (address: Text)
    requires c.Valid() && Honest(c, kcore) && NUL !in key
    ensures address == if IsKeyLength(|key|) then Some(Address(c, key)) else None
  {
    hide Advanced, Advance;
    if |key| != 2048 && |key| != 8192 {
      return None;
    }
    if kcore.Linked? {
      var lower := IsLowerHex(key, |key|);
      assert key[..|key|] == key;
      if lower && kcore.address(key).Some? {
        return kcore.address(key);
      }
    }
    var ok, fragments := ChunkString(key, CHUNK);
    var fragmentCount := |key| / CHUNK;
    var digest := "";
    assert key[..CHUNK * 0] == "" && Repeat(0, ADDRESS_ROUNDS) == [];
    AdvancedNone(c);
    ghost var counts := Repeat(fragmentCount, ADDRESS_ROUNDS);
    for i := 0 to fragmentCount
      invariant digest == Advanced(c, key[..CHUNK * i], Repeat(i, ADDRESS_ROUNDS))
    {
      var working := RunChain(c, key[CHUNK * i..CHUNK * (i + 1)], ADDRESS_ROUNDS);
      AddressRound(c, key, i);
      digest := digest + working;
    }
    assert key[..CHUNK * fragmentCount] == key;
    return Some(c.shake(c.shake(digest, 8192), 256));
  }
}
