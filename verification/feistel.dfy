/**
 * The block cipher of `FeistelNetwork`: 64-byte blocks, ten rounds whose
 * round function hashes the right half XOR the round key with SHA-256,
 * and whitening with a prekey before and a postkey after the rounds.
 */
module Feistel {
  import opened Bytes
  import opened KeySchedule

  const ROUND_COUNT: nat := 10
  const BLOCK_SIZE: nat := 64
  const HALF_BLOCK_SIZE: nat := BLOCK_SIZE / 2

  /** A SHA-256 digest: 32 bytes, half a block. */
  type Digest = d: seq<byte> | |d| == HALF_BLOCK_SIZE
    witness seq(HALF_BLOCK_SIZE, _ => 0 as byte)

  /** SHA-256 as a function from a message to its digest. Its internals are
      not modelled: all the round function relies on is that every digest is
      half a block long. */
  type Sha256Fn = seq<byte> -> Digest

  /** `_split`: the first half block and the rest. */
  function Split(block: seq<byte>): (halves: (seq<byte>, seq<byte>))
    ensures halves.0 + halves.1 == block
    ensures |block| == BLOCK_SIZE ==> |halves.0| == HALF_BLOCK_SIZE && |halves.1| == HALF_BLOCK_SIZE
  {
    var cut := Min(HALF_BLOCK_SIZE, |block|);
    (block[..cut], block[cut..])
  }

  /** `_reverse`: the two halves swapped. */
  function Reverse(block: seq<byte>): (r: seq<byte>)
    ensures |r| == |block|
    ensures |block| == BLOCK_SIZE ==> Split(r) == (Split(block).1, Split(block).0)
  {
    var (left, right) := Split(block);
    right + left
  }

  /** Swapping the halves of a block twice gives back the block. */
  lemma ReverseInvolution(block: seq<byte>)
    requires |block| == BLOCK_SIZE
    ensures Reverse(Reverse(block)) == block
  {
    var (left, right) := Split(block);
    assert Split(Reverse(block)) == (right, left);
  }

  /** `round`: the new left half is the old right half; the new right half
      is the old left half XOR the digest of (old right half XOR round key). */
  function Round(sha256: Sha256Fn, block: seq<byte>, roundKey: seq<byte>): (r: seq<byte>)
    requires |block| == BLOCK_SIZE && |roundKey| == HALF_BLOCK_SIZE
    ensures |r| == BLOCK_SIZE
  {
    var (left, right) := Split(block);
    right + Xor(left, sha256(Xor(right, roundKey)))
  }

  /** The halves of a round's output: the left is the input's right half,
      the right is the input's left half masked with the digest of the
      input's right half XOR the round key. */
  lemma RoundHalves(sha256: Sha256Fn, block: seq<byte>, roundKey: seq<byte>)
    requires |block| == BLOCK_SIZE && |roundKey| == HALF_BLOCK_SIZE
    ensures Split(Round(sha256, block, roundKey)).0 == Split(block).1
    ensures Split(Round(sha256, block, roundKey)).1 == Xor(Split(block).0, sha256(Xor(Split(block).1, roundKey)))
  {
    var (left, right) := Split(block);
    var r := Round(sha256, block, roundKey);
    assert r == right + Xor(left, sha256(Xor(right, roundKey)));
    assert Split(r) == (r[..HALF_BLOCK_SIZE], r[HALF_BLOCK_SIZE..]);
  }

  /** The Feistel property: a round, a swap, the same round again and a swap
      undo each other, whatever the digest function is. */
  lemma RoundInvolution(sha256: Sha256Fn, block: seq<byte>, roundKey: seq<byte>)
    requires |block| == BLOCK_SIZE && |roundKey| == HALF_BLOCK_SIZE
    ensures Reverse(Round(sha256, Reverse(Round(sha256, block, roundKey)), roundKey)) == block
  {
    var (left, right) := Split(block);
    var digest := sha256(Xor(right, roundKey));
    var once := Round(sha256, block, roundKey);
    RoundHalves(sha256, block, roundKey);
    var swapped := Reverse(once);
    assert Split(swapped) == (Xor(left, digest), right);
    var twice := Round(sha256, swapped, roundKey);
    RoundHalves(sha256, swapped, roundKey);
    assert Split(twice) == (right, Xor(Xor(left, digest), digest));
    XorCancel(left, digest);
    assert Split(Reverse(twice)) == (left, right);
  }

  /** One step of the inversion: if swapping `swapped` gives the round of
      `before`, the round of `swapped`, swapped, is `before` again. */
  lemma UndoRound(sha256: Sha256Fn, before: seq<byte>, swapped: seq<byte>, roundKey: seq<byte>)
    requires |before| == BLOCK_SIZE && |swapped| == BLOCK_SIZE && |roundKey| == HALF_BLOCK_SIZE
    requires Reverse(swapped) == Round(sha256, before, roundKey)
    ensures Reverse(Round(sha256, swapped, roundKey)) == before
    ensures Round(sha256, swapped, roundKey) == Reverse(before)
  {
    ReverseInvolution(swapped);
    RoundInvolution(sha256, before, roundKey);
    ReverseInvolution(Round(sha256, swapped, roundKey));
  }

  /** Key material of the shape the cipher derives: ten rounds, 64-byte blocks. */
  predicate CipherKeys(keys: KeyMaterial)
  {
    keys.blockSize == BLOCK_SIZE && |keys.data| == KeyDataLength(ROUND_COUNT, BLOCK_SIZE)
  }

  /** The cipher's key layout: 448 bytes of key data, the prekey at
      `[0, 64)`, round key `r` at `[64 + 32r, 96 + 32r)` inside `[64, 384)`,
      the postkey at `[384, 448)`, and the three views tiling the buffer. */
  lemma CipherKeyLayout(keys: KeyMaterial)
    requires CipherKeys(keys)
    ensures |keys.data| == 448
    ensures keys.PreKey() == keys.data[0..64]
    ensures keys.PostKey() == keys.data[384..448]
    ensures forall r :: 0 <= r < ROUND_COUNT ==>
              64 <= 64 + 32 * r && 96 + 32 * r <= 384 &&
              keys.RoundKey(r) == keys.data[64 + 32 * r..96 + 32 * r]
    ensures keys.PreKey() + RoundKeysConcat(keys, ROUND_COUNT) + keys.PostKey() == keys.data
  {
    KeyLayout(keys, ROUND_COUNT);
    forall r | 0 <= r < ROUND_COUNT
      ensures keys.RoundKey(r) == keys.data[64 + 32 * r..96 + 32 * r]
    {
      RoundKeyWindow(keys, ROUND_COUNT, r);
    }
  }

  /** The whitening keys are whole blocks. */
  lemma WhiteningKeyLengths(keys: KeyMaterial)
    requires CipherKeys(keys)
    ensures |keys.PreKey()| == BLOCK_SIZE && |keys.PostKey()| == BLOCK_SIZE
  {
    KeyLayout(keys, ROUND_COUNT);
  }

  /** Every round key of the cipher is half a block. */
  lemma RoundKeyLength(keys: KeyMaterial, r: nat)
    requires CipherKeys(keys) && r < ROUND_COUNT
    ensures |keys.RoundKey(r)| == HALF_BLOCK_SIZE
  {
    RoundKeyWindow(keys, ROUND_COUNT, r);
  }

  /** `block` after the rounds `0, 1, ..., n-1`, with the round keys in
      ascending order, as the loop of `encrypt_block` runs them. */
  function EncryptRounds(sha256: Sha256Fn, keys: KeyMaterial, block: seq<byte>, n: nat): (r: seq<byte>)
    requires CipherKeys(keys) && |block| == BLOCK_SIZE && n <= ROUND_COUNT
    ensures |r| == BLOCK_SIZE
    decreases n
  {
    if n == 0 then block
    else
      RoundKeyLength(keys, n - 1);
      Round(sha256, EncryptRounds(sha256, keys, block, n - 1), keys.RoundKey(n - 1))
  }

  /** `block` after the rounds `n-1, ..., 1, 0`, with the round keys in
      descending order, as the loop of `decrypt_block` runs them. */
  function DecryptRounds(sha256: Sha256Fn, keys: KeyMaterial, block: seq<byte>, n: nat): (r: seq<byte>)
    requires CipherKeys(keys) && |block| == BLOCK_SIZE && n <= ROUND_COUNT
    ensures |r| == BLOCK_SIZE
    decreases n
  {
    if n == 0 then block
    else
      RoundKeyLength(keys, n - 1);
      DecryptRounds(sha256, keys, Round(sha256, block, keys.RoundKey(n - 1)), n - 1)
  }

  /** `encrypt_block`: whiten with the prekey, ten rounds with keys
      ascending, swap the halves, whiten with the postkey. */
  function Encrypt(sha256: Sha256Fn, keys: KeyMaterial, block: seq<byte>): (c: seq<byte>)
    requires CipherKeys(keys) && |block| == BLOCK_SIZE
    ensures |c| == BLOCK_SIZE
  {
    WhiteningKeyLengths(keys);
    Xor(Reverse(EncryptRounds(sha256, keys, Xor(block, keys.PreKey()), ROUND_COUNT)), keys.PostKey())
  }

  /** `decrypt_block`: whiten with the postkey, ten rounds with keys
      descending, swap the halves, whiten with the prekey. */
  function Decrypt(sha256: Sha256Fn, keys: KeyMaterial, block: seq<byte>): (p: seq<byte>)
    requires CipherKeys(keys) && |block| == BLOCK_SIZE
    ensures |p| == BLOCK_SIZE
  {
    WhiteningKeyLengths(keys);
    Xor(Reverse(DecryptRounds(sha256, keys, Xor(block, keys.PostKey()), ROUND_COUNT)), keys.PreKey())
  }

  /** Decryption's first round, split off: the rounds `n` down to `0` are
      round `n` followed by the rounds `n-1` down to `0`. */
  lemma DecryptRoundsFirst(sha256: Sha256Fn, keys: KeyMaterial, block: seq<byte>, n: nat)
    requires CipherKeys(keys) && |block| == BLOCK_SIZE && n < ROUND_COUNT
    ensures |keys.RoundKey(n)| == HALF_BLOCK_SIZE
    ensures DecryptRounds(sha256, keys, block, n + 1) == DecryptRounds(sha256, keys, Round(sha256, block, keys.RoundKey(n)), n)
  {
    RoundKeyLength(keys, n);
  }

  /** The rounds `n-1` down to `0`, run over the swapped result of the
      rounds `0` up to `n-1`, give the block back once swapped. */
  lemma {:induction false} DecryptRoundsUndo(sha256: Sha256Fn, keys: KeyMaterial, block: seq<byte>, n: nat)
    requires CipherKeys(keys) && |block| == BLOCK_SIZE && n <= ROUND_COUNT
    ensures Reverse(DecryptRounds(sha256, keys, Reverse(EncryptRounds(sha256, keys, block, n)), n)) == block
    decreases n
  {
    if n == 0 {
      ReverseInvolution(block);
    } else {
      DecryptRoundsFirst(sha256, keys, Reverse(EncryptRounds(sha256, keys, block, n)), n - 1);
      var before := EncryptRounds(sha256, keys, block, n - 1);
      var after := Round(sha256, before, keys.RoundKey(n - 1));
      ReverseInvolution(after);
      UndoRound(sha256, before, Reverse(after), keys.RoundKey(n - 1));
      DecryptRoundsUndo(sha256, keys, block, n - 1);
    }
  }

  /** The rounds `0` up to `n-1`, run over the swapped result of the rounds
      `n-1` down to `0`, give the block back once swapped. */
  lemma {:induction false} EncryptRoundsUndo(sha256: Sha256Fn, keys: KeyMaterial, block: seq<byte>, n: nat)
    requires CipherKeys(keys) && |block| == BLOCK_SIZE && n <= ROUND_COUNT
    ensures Reverse(EncryptRounds(sha256, keys, Reverse(DecryptRounds(sha256, keys, block, n)), n)) == block
    decreases n
  {
    if n == 0 {
      ReverseInvolution(block);
    } else {
      RoundKeyLength(keys, n - 1);
      var k := keys.RoundKey(n - 1);
      var next := Round(sha256, block, k);
      EncryptRoundsUndo(sha256, keys, next, n - 1);
      var swapped := Reverse(DecryptRounds(sha256, keys, block, n));
      UndoRound(sha256, block, EncryptRounds(sha256, keys, swapped, n - 1), k);
    }
  }

  /** Decryption inverts encryption, for every digest function and key data. */
  lemma DecryptEncrypt(sha256: Sha256Fn, keys: KeyMaterial, block: seq<byte>)
    requires CipherKeys(keys) && |block| == BLOCK_SIZE
    ensures Decrypt(sha256, keys, Encrypt(sha256, keys, block)) == block
  {
    WhiteningKeyLengths(keys);
    var whitened := Xor(block, keys.PreKey());
    var swapped := Reverse(EncryptRounds(sha256, keys, whitened, ROUND_COUNT));
    XorCancel(swapped, keys.PostKey());
    assert Xor(Encrypt(sha256, keys, block), keys.PostKey()) == swapped;
    DecryptRoundsUndo(sha256, keys, whitened, ROUND_COUNT);
    XorCancel(block, keys.PreKey());
  }

  /** Encryption inverts decryption: the cipher is a permutation of blocks. */
  lemma EncryptDecrypt(sha256: Sha256Fn, keys: KeyMaterial, block: seq<byte>)
    requires CipherKeys(keys) && |block| == BLOCK_SIZE
    ensures Encrypt(sha256, keys, Decrypt(sha256, keys, block)) == block
  {
    WhiteningKeyLengths(keys);
    var whitened := Xor(block, keys.PostKey());
    var swapped := Reverse(DecryptRounds(sha256, keys, whitened, ROUND_COUNT));
    XorCancel(swapped, keys.PreKey());
    assert Xor(Decrypt(sha256, keys, block), keys.PreKey()) == swapped;
    EncryptRoundsUndo(sha256, keys, whitened, ROUND_COUNT);
    XorCancel(block, keys.PostKey());
  }

  /** `FeistelNetwork`: the key material is derived once, at construction,
      and never changes afterwards. */
  class FeistelNetwork {
    const sha256: Sha256Fn
    const keys: KeyMaterial

    ghost predicate Valid()
    {
      CipherKeys(keys)
    }

    /** `__init__(key)`: ten rounds, 64-byte blocks, keys from `generate_round_keys`. */
    constructor (key: seq<byte>, kdf: Pbkdf2Fn, sha256: Sha256Fn)
      ensures Valid()
      ensures this.sha256 == sha256
      ensures keys == GenerateRoundKeys(kdf, key, ROUND_COUNT, BLOCK_SIZE)
    {
      this.sha256 := sha256;
      keys := GenerateRoundKeys(kdf, key, ROUND_COUNT, BLOCK_SIZE);
    }

    /** The `for` loop of `encrypt_block`: the rounds `0 .. ROUND_COUNT-1`,
        with the round keys in ascending order. */
    method EncryptLoop(whitened: seq<byte>) returns (b: seq<byte>)
      requires Valid() && |whitened| == BLOCK_SIZE
      ensures |b| == BLOCK_SIZE
      ensures b == EncryptRounds(sha256, keys, whitened, ROUND_COUNT)
    {
      b := whitened;
      for i := 0 to ROUND_COUNT
        invariant |b| == BLOCK_SIZE
        invariant b == EncryptRounds(sha256, keys, whitened, i)
      {
        RoundKeyLength(keys, i);
        b := Round(sha256, b, keys.RoundKey(i));
      }
    }

    /** The `for` loop of `decrypt_block`: the rounds `ROUND_COUNT-1` down
        to `0`, with the round keys in descending order. */
    method DecryptLoop(whitened: seq<byte>) returns (b: seq<byte>)
      requires Valid() && |whitened| == BLOCK_SIZE
      ensures |b| == BLOCK_SIZE
      ensures b == DecryptRounds(sha256, keys, whitened, ROUND_COUNT)
    {
      b := whitened;
      for i := ROUND_COUNT downto 0
        invariant |b| == BLOCK_SIZE
        invariant DecryptRounds(sha256, keys, b, i) == DecryptRounds(sha256, keys, whitened, ROUND_COUNT)
      {
        DecryptRoundsFirst(sha256, keys, b, i);
        b := Round(sha256, b, keys.RoundKey(i));
      }
    }

    /** `encrypt_block` */
    method EncryptBlock(block: seq<byte>) returns (out: seq<byte>)
      requires Valid() && |block| == BLOCK_SIZE
      ensures |out| == BLOCK_SIZE
      ensures out == Encrypt(sha256, keys, block)
    {
      WhiteningKeyLengths(keys);
      var b := Xor(block, keys.PreKey());
      b := EncryptLoop(b);
      b := Reverse(b);
      out := Xor(b, keys.PostKey());
    }

    /** `decrypt_block` */
    method DecryptBlock(block: seq<byte>) returns (out: seq<byte>)
      requires Valid() && |block| == BLOCK_SIZE
      ensures |out| == BLOCK_SIZE
      ensures out == Decrypt(sha256, keys, block)
    {
      WhiteningKeyLengths(keys);
      var b := Xor(block, keys.PostKey());
      b := DecryptLoop(b);
      b := Reverse(b);
      out := Xor(b, keys.PreKey());
    }
  }
}
