/**
 The one-time-signature chains: key derivation, signing, resolving and the wallet
 address (src/wallet.c:121-347, src/molecule.c:445-504, src/libraries/check_molecule.c:285-343).

 SHAKE256 and the big-integer addition are function-valued parameters.
 */
module Chains {
  import opened Basics
  import opened Digits
  import opened Base17
  import opened Normalize

  const CHUNK: nat := 128
  const V1_CHAINS: nat := 16
  const V2_CHAINS: nat := 64
  const ADDRESS_ROUNDS: nat := 16

  /** shake(s, bits) is knishio_shake256_hash; addHex is knishio_wallet_key_from_hex. */
  datatype Crypto = Crypto(shake: (string, nat) -> string, addHex: (string, string) -> Option<string>) {

    /** A digest is lowercase hexadecimal, two characters a byte. */
    ghost predicate Valid() {
      forall s: string, bits: nat {:trigger shake(s, bits)} ::
        |shake(s, bits)| == 2 * ((bits + 7) / 8) && IsNumeral(16, shake(s, bits))
    }
  }

  /** A chunk hashed n times, each time to 512 bits. */
  function Advance(c: Crypto, chunk: string, n: nat): string
    decreases n
  {
    if n == 0 then chunk else Advance(c, c.shake(chunk, 512), n - 1)
  }

  lemma {:induction false} AdvanceShape(c: Crypto, chunk: string, n: nat)
    requires c.Valid() && |chunk| == CHUNK
    ensures |Advance(c, chunk, n)| == CHUNK
    ensures IsNumeral(16, chunk) ==> IsNumeral(16, Advance(c, chunk, n))
    ensures '\0' !in chunk ==> '\0' !in Advance(c, chunk, n)
    decreases n
  {
    if n > 0 {
      NumeralHasNoNul(16, c.shake(chunk, 512));
      AdvanceShape(c, c.shake(chunk, 512), n - 1);
    }
  }

  lemma {:induction false} NumeralHasNoNul(base: nat, s: string)
    requires base <= 36 && IsNumeral(base, s)
    ensures '\0' !in s
  {
  }

  lemma {:induction false} AdvanceAdd(c: Crypto, chunk: string, m: nat, n: nat)
    ensures Advance(c, Advance(c, chunk, m), n) == Advance(c, chunk, m + n)
    decreases m
  {
    if m > 0 {
      AdvanceAdd(c, c.shake(chunk, 512), m - 1, n);
    }
  }

  /** One more step at the end is one more step. */
  lemma {:induction false} AdvanceSucc(c: Crypto, chunk: string, n: nat)
    ensures c.shake(Advance(c, chunk, n), 512) == Advance(c, chunk, n + 1)
  {
    AdvanceAdd(c, chunk, n, 1);
    assert Advance(c, Advance(c, chunk, n), 1) == Advance(c, c.shake(Advance(c, chunk, n), 512), 0);
  }

  /** Chain i of src (its i-th 128 characters) advanced counts[i] steps, concatenated. */
  function Advanced(c: Crypto, src: string, counts: seq<nat>): string
    requires |src| == CHUNK * |counts|
  {
    if counts == [] then ""
    else
      var last := |counts| - 1;
      Advanced(c, src[..CHUNK * last], counts[..last]) + Advance(c, src[CHUNK * last..], counts[last])
  }

  lemma {:induction false} AdvancedShape(c: Crypto, src: string, counts: seq<nat>)
    requires c.Valid() && |src| == CHUNK * |counts|
    ensures |Advanced(c, src, counts)| == |src|
    ensures IsNumeral(16, src) ==> IsNumeral(16, Advanced(c, src, counts))
    ensures '\0' !in src ==> '\0' !in Advanced(c, src, counts)
  {
    if counts != [] {
      var last := |counts| - 1;
      AdvancedShape(c, src[..CHUNK * last], counts[..last]);
      AdvanceShape(c, src[CHUNK * last..], counts[last]);
    }
  }

  function AddCounts(a: seq<nat>, b: seq<nat>): (sum: seq<nat>)
    requires |a| == |b|
    ensures |sum| == |a|
  {
    seq(|a|, i requires 0 <= i < |a| => a[i] + b[i])
  }

  /** Advancing advanced chains adds the counts. */
  lemma {:induction false} AdvancedAdd(c: Crypto, src: string, a: seq<nat>, b: seq<nat>)
    requires c.Valid() && |src| == CHUNK * |a| && |a| == |b|
    ensures |Advanced(c, src, a)| == |src|
    ensures Advanced(c, Advanced(c, src, a), b) == Advanced(c, src, AddCounts(a, b))
  {
    hide Advance;
    AdvancedShape(c, src, a);
    if a != [] {
      var last := |a| - 1;
      var front, tail := src[..CHUNK * last], src[CHUNK * last..];
      AdvancedAdd(c, front, a[..last], b[..last]);
      AdvanceAdd(c, tail, a[last], b[last]);
      var mid := Advanced(c, src, a);
      assert mid[..CHUNK * last] == Advanced(c, front, a[..last]);
      assert mid[CHUNK * last..] == Advance(c, tail, a[last]);
      assert AddCounts(a, b)[..last] == AddCounts(a[..last], b[..last]);
    }
  }

  /** The normalised hash n as step counts: the signer takes 8 - n[i], the verifier 8 + n[i]. */
  ghost function NormalizedHash(hash: string): (n: seq<int>)
    requires IsSignable(hash)
    ensures |n| == HASH_LENGTH && InRange(n) && Sum(n) == 0
  {
    NormalizedProperties(Enumerated(hash));
    assert InRange(Enumerated(hash));
    Normalized(Enumerated(hash))
  }

  ghost function StepsToSign(hash: string, i: nat): (steps: nat)
    requires IsSignable(hash) && i < HASH_LENGTH
    ensures steps <= 16
  {
    8 - NormalizedHash(hash)[i]
  }

  ghost function StepsToVerify(hash: string, i: nat): (steps: nat)
    requires IsSignable(hash) && i < HASH_LENGTH
    ensures steps <= 16
  {
    8 + NormalizedHash(hash)[i]
  }

  ghost function SignCounts(hash: string, chains: nat): (counts: seq<nat>)
    requires IsSignable(hash) && chains <= HASH_LENGTH
    ensures |counts| == chains
    ensures forall i :: 0 <= i < chains ==> counts[i] <= 16
  {
    seq(chains, i requires 0 <= i < chains => StepsToSign(hash, i))
  }

  ghost function VerifyCounts(hash: string, chains: nat): (counts: seq<nat>)
    requires IsSignable(hash) && chains <= HASH_LENGTH
    ensures |counts| == chains
    ensures forall i :: 0 <= i < chains ==> counts[i] <= 16
  {
    seq(chains, i requires 0 <= i < chains => StepsToVerify(hash, i))
  }

  function Repeat(n: nat, count: nat): (counts: seq<nat>)
    ensures |counts| == n
  {
    seq(n, _ => count)
  }

  /** Two hashes of all chains: digest to 8192 bits, then the 256-bit address. */
  function AddressOf(c: Crypto, ends: string): string {
    c.shake(c.shake(ends, 8192), 256)
  }

  /** The wallet address of a private key: every chain run to its end. */
  function Address(c: Crypto, key: string): string
    requires |key| % CHUNK == 0
  {
    AddressOf(c, Advanced(c, key, Repeat(|key| / CHUNK, ADDRESS_ROUNDS)))
  }

  ghost function Signature(c: Crypto, key: string, hash: string): string
    requires |key| % CHUNK == 0 && |key| / CHUNK <= HASH_LENGTH && IsSignable(hash)
  {
    Advanced(c, key, SignCounts(hash, |key| / CHUNK))
  }

  /** The address a signature resolves to under a hash. */
  ghost function Resolved(c: Crypto, signature: string, hash: string): string
    requires |signature| % CHUNK == 0 && |signature| / CHUNK <= HASH_LENGTH && IsSignable(hash)
  {
    AddressOf(c, Advanced(c, signature, VerifyCounts(hash, |signature| / CHUNK)))
  }

  /** Chain complement: a signature resolves to the signing key's own address. */
  lemma {:induction false} SignatureResolves(c: Crypto, key: string, hash: string)
    requires c.Valid() && IsSignable(hash)
    requires |key| % CHUNK == 0 && |key| / CHUNK <= HASH_LENGTH
    ensures |Signature(c, key, hash)| == |key|
    ensures Resolved(c, Signature(c, key, hash), hash) == Address(c, key)
  {
    hide Advanced, NormalizedHash;
    var chains := |key| / CHUNK;
    AdvancedAdd(c, key, SignCounts(hash, chains), VerifyCounts(hash, chains));
    assert AddCounts(SignCounts(hash, chains), VerifyCounts(hash, chains)) == Repeat(chains, ADDRESS_ROUNDS);
  }

  lemma {:induction false} SumComplement(n: seq<int>, counts: seq<nat>)
    requires |n| == |counts| && forall i :: 0 <= i < |n| ==> counts[i] == 8 - n[i]
    ensures Sum(counts) == 8 * |n| - Sum(n)
  {
    if n != [] {
      SumComplement(n[..|n| - 1], counts[..|n| - 1]);
    }
  }

  /** 64 chains always spend 512 steps in all, so no count vector lies below another. */
  lemma {:induction false} SignCountsBalanced(hash: string, other: string)
    requires IsSignable(hash) && IsSignable(other)
    ensures Sum(SignCounts(hash, V2_CHAINS)) == 512
    ensures (forall i :: 0 <= i < V2_CHAINS ==> SignCounts(hash, V2_CHAINS)[i] <= SignCounts(other, V2_CHAINS)[i])
        ==> NormalizedHash(hash) == NormalizedHash(other)
  {
    SumComplement(NormalizedHash(hash), SignCounts(hash, V2_CHAINS));
    if forall i :: 0 <= i < V2_CHAINS ==> SignCounts(hash, V2_CHAINS)[i] <= SignCounts(other, V2_CHAINS)[i] {
      forall i | 0 <= i < HASH_LENGTH
        ensures LIMIT - Normalized(Enumerated(hash))[i] <= LIMIT - Normalized(Enumerated(other))[i]
      {
        assert SignCounts(hash, V2_CHAINS)[i] <= SignCounts(other, V2_CHAINS)[i];
      }
      NormalizedAntichain(Enumerated(hash), Enumerated(other));
    }
  }

  /** is_strict_hex: upper or lower case, not empty. */
  predicate IsStrictHex(s: string) {
    s != "" && forall i :: 0 <= i < |s| ==> '0' <= s[i] <= '9' || 'a' <= s[i] <= 'f' || 'A' <= s[i] <= 'F'
  }

  /** knishio_generate_wallet_key_with_ots_version. */
  function WalletKey(c: Crypto, secret: string, token: Text, position: string, otsVersion: int): (key: Text)
    ensures c.Valid() && key.Some? ==>
      IsNumeral(16, key.value) && |key.value| == CHUNK * (if otsVersion == 2 then V2_CHAINS else V1_CHAINS) &&
      |key.value| % CHUNK == 0
  {
    if otsVersion != 1 && otsVersion != 2 then None
    else if secret == "" || position == "" then None
    else
      var secretHex := if IsStrictHex(secret) then secret else c.shake(secret, 1024);
      var positionHex := if IsStrictHex(position) then position else c.shake(position, 256);
      match c.addHex(secretHex, positionHex)
      case None => None
      case Some(indexed) =>
        var stage1 := if otsVersion == 2 then "KnishIO-OTS-v2|" + indexed + "|" + OrEmpty(token)
                      else indexed + OrEmpty(token);
        Some(c.shake(c.shake(stage1, 8192), if otsVersion == 2 then 32768 else 8192))
  }

  /** No two of these texts have one digest of some length. */
  ghost predicate Separates(c: Crypto, texts: set<string>) {
    forall x, y, bits: nat {:trigger c.shake(x, bits), c.shake(y, bits)} ::
      x in texts && y in texts && c.shake(x, bits) == c.shake(y, bits) ==> x == y
  }

  /** The text a key is squeezed from, with the sum of secret and position, and its digest. */
  function KeyTexts(c: Crypto, indexed: string, token: string, otsVersion: int): set<string> {
    var text := (if otsVersion == 2 then "KnishIO-OTS-v2|" + indexed + "|" else indexed) + token;
    {text, c.shake(text, 8192)}
  }

  /** Keys of one secret and position at one version belong to one token, unless SHAKE collides on their texts. */
  lemma {:induction false} KeyDeterminesToken(c: Crypto, secret: string, position: string, otsVersion: int,
                                              indexed: string, token: Text, other: Text)
    requires c.addHex(if IsStrictHex(secret) then secret else c.shake(secret, 1024),
                      if IsStrictHex(position) then position else c.shake(position, 256)) == Some(indexed)
    requires Separates(c, KeyTexts(c, indexed, OrEmpty(token), otsVersion) +
                          KeyTexts(c, indexed, OrEmpty(other), otsVersion))
    requires WalletKey(c, secret, token, position, otsVersion).Some?
    ensures WalletKey(c, secret, token, position, otsVersion) == WalletKey(c, secret, other, position, otsVersion)
       <==> OrEmpty(token) == OrEmpty(other)
  {
    var front := if otsVersion == 2 then "KnishIO-OTS-v2|" + indexed + "|" else indexed;
    var x, y := front + OrEmpty(token), front + OrEmpty(other);
    assert x == y ==> x[|front|..] == OrEmpty(token) && y[|front|..] == OrEmpty(other);
    if c.shake(c.shake(x, 8192), if otsVersion == 2 then 32768 else 8192)
       == c.shake(c.shake(y, 8192), if otsVersion == 2 then 32768 else 8192) {
      assert c.shake(x, 8192) == c.shake(y, 8192);
    }
  }

  /** A chain of the signature is a chain of the key, hashed the more often the smaller its number. */
  lemma {:induction false} SignatureChain(c: Crypto, key: string, hash: string, i: nat)
    requires c.Valid() && IsSignable(hash) && |key| % CHUNK == 0 && i < |key| / CHUNK <= HASH_LENGTH
    ensures |Signature(c, key, hash)| == |key|
    ensures Signature(c, key, hash)[CHUNK * i..CHUNK * (i + 1)]
         == Advance(c, key[CHUNK * i..CHUNK * (i + 1)], 8 - NormalizedHash(hash)[i])
  {
    var counts := SignCounts(hash, |key| / CHUNK);
    AdvancedShape(c, key, counts);
    AdvancedAt(c, key, counts, i);
  }

  lemma {:induction false} AdvancedAt(c: Crypto, src: string, counts: seq<nat>, i: nat)
    requires c.Valid() && |src| == CHUNK * |counts| && i < |counts|
    ensures |Advanced(c, src, counts)| == |src|
    ensures Advanced(c, src, counts)[CHUNK * i..CHUNK * (i + 1)]
         == Advance(c, src[CHUNK * i..CHUNK * (i + 1)], counts[i])
  {
    hide Advance;
    AdvancedShape(c, src, counts);
    var last := |counts| - 1;
    var front, tail := src[..CHUNK * last], src[CHUNK * last..];
    var done := Advanced(c, front, counts[..last]);
    AdvancedShape(c, front, counts[..last]);
    assert Advanced(c, src, counts) == done + Advance(c, tail, counts[last]);
    if i < last {
      AdvancedAt(c, front, counts[..last], i);
      assert (done + Advance(c, tail, counts[last]))[CHUNK * i..CHUNK * (i + 1)] == done[CHUNK * i..CHUNK * (i + 1)];
      assert front[CHUNK * i..CHUNK * (i + 1)] == src[CHUNK * i..CHUNK * (i + 1)];
    } else {
      assert src[CHUNK * i..CHUNK * (i + 1)] == tail;
      AdvanceShape(c, tail, counts[last]);
    }
  }

  /** Chain i of a text. */
  function Chunk(text: string, i: nat): string
    requires CHUNK * (i + 1) <= |text|
  {
    text[CHUNK * i..CHUNK * (i + 1)]
  }

  /** The last chain, and a chain before it. */
  lemma {:induction false} ChunkAt(text: string, chains: nat, i: nat)
    requires i < chains && |text| == CHUNK * chains
    ensures Chunk(text, chains - 1) == text[CHUNK * (chains - 1)..]
    ensures i < chains - 1 ==> Chunk(text[..CHUNK * (chains - 1)], i) == Chunk(text, i)
  {
  }

  lemma {:induction false} SameChunks(s: string, t: string, chains: nat)
    requires |s| == |t| == CHUNK * chains && forall i :: 0 <= i < chains ==> Chunk(s, i) == Chunk(t, i)
    ensures s == t
  {
    if chains > 0 {
      hide Chunk;
      var k := CHUNK * (chains - 1);
      forall i | 0 <= i < chains - 1 ensures Chunk(s[..k], i) == Chunk(t[..k], i) {
        ChunkAt(s, chains, i);
        ChunkAt(t, chains, i);
      }
      SameChunks(s[..k], t[..k], chains - 1);
      ChunkAt(s, chains, 0);
      ChunkAt(t, chains, 0);
      TakeDrop(s, k);
      TakeDrop(t, k);
    } else {
      assert s == "" && t == "";
    }
  }

  /** The address of a key, from the ends its chains reach after sixteen steps. */
  lemma {:induction false} AddressByChains(c: Crypto, key: string, ends: string)
    requires c.Valid() && |key| % CHUNK == 0 && |ends| == |key|
    requires forall i :: 0 <= i < |key| / CHUNK ==> Chunk(ends, i) == Advance(c, Chunk(key, i), 16)
    ensures Address(c, key) == c.shake(c.shake(ends, 8192), 256) && |Address(c, key)| == 64
  {
    var chains := |key| / CHUNK;
    ChainsReach(c, key, Repeat(chains, ADDRESS_ROUNDS), ends);
  }

  /** What a signature resolves to, from the ends its chains reach with 8 + n[i] steps. */
  lemma {:induction false} ResolvedByChains(c: Crypto, signature: string, hash: string, ends: string)
    requires c.Valid() && IsSignable(hash) && |signature| % CHUNK == 0 && |signature| / CHUNK <= HASH_LENGTH
    requires |ends| == |signature| && forall i :: 0 <= i < |signature| / CHUNK ==>
               Chunk(ends, i) == Advance(c, Chunk(signature, i), 8 + NormalizedHash(hash)[i])
    ensures Resolved(c, signature, hash) == c.shake(c.shake(ends, 8192), 256)
  {
    ChainsReach(c, signature, VerifyCounts(hash, |signature| / CHUNK), ends);
  }

  lemma {:induction false} ChainsReach(c: Crypto, src: string, counts: seq<nat>, ends: string)
    requires c.Valid() && |src| == |ends| == CHUNK * |counts|
    requires forall i :: 0 <= i < |counts| ==> Chunk(ends, i) == Advance(c, Chunk(src, i), counts[i])
    ensures Advanced(c, src, counts) == ends
  {
    hide Advance, Advanced;
    AdvancedShape(c, src, counts);
    forall i | 0 <= i < |counts| ensures Chunk(Advanced(c, src, counts), i) == Chunk(ends, i) {
      AdvancedAt(c, src, counts, i);
    }
    SameChunks(Advanced(c, src, counts), ends, |counts|);
  }
}
