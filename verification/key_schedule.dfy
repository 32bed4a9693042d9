/**
 * The key schedule of `FeistelNetwork.generate_round_keys`: one buffer of
 * key data is derived from the secret and read through three views, a
 * pre-whitening key, a window of half a block per round, and a
 * post-whitening key.
 *
 *   [ prekey: blockSize ][ round key 0: half ] ... [ round key n-1: half ][ postkey: blockSize ]
 */
module KeySchedule {
  import opened Bytes

  /** PBKDF2-HMAC-SHA256 with the fixed salt "Computerphile" and 500
      iterations, as a function of the secret and the requested length.
      Its internals are not modelled: all the cipher relies on is that it
      returns exactly `dklen` bytes. */
  type Pbkdf2Fn = f: (seq<byte>, nat) -> seq<byte> | forall secret, dklen :: |f(secret, dklen)| == dklen
    witness (secret: seq<byte>, dklen: nat) => seq(dklen, _ => 0 as byte)

  /** The derived buffer together with the block size the views are cut with. */
  datatype KeyMaterial = KeyMaterial(data: seq<byte>, blockSize: nat)
  {
    function HalfBlockSize(): nat { blockSize / 2 }

    /** First byte of round key `r`'s window. */
    function RoundKeyStart(r: nat): nat { blockSize + HalfBlockSize() * r }

    /** One past the last byte of round key `r`'s window. */
    function RoundKeyEnd(r: nat): nat { blockSize + HalfBlockSize() + HalfBlockSize() * r }

    /** `key_data[:block_size]` */
    function PreKey(): (k: seq<byte>)
      ensures blockSize <= |data| ==> k == data[..blockSize]
    {
      Slice(data, 0, blockSize)
    }

    /** The `roundkeys` accessor: `key_data[start(r):end(r)]`, clamped as Python clamps. */
    function RoundKey(r: nat): (k: seq<byte>)
      ensures RoundKeyEnd(r) <= |data| ==> k == data[RoundKeyStart(r)..RoundKeyEnd(r)]
    {
      Slice(data, RoundKeyStart(r), RoundKeyEnd(r))
    }

    /** `key_data[-block_size:]` */
    function PostKey(): (k: seq<byte>)
      ensures 0 < blockSize <= |data| ==> k == data[|data| - blockSize..]
    {
      Tail(data, blockSize)
    }
  }

  /** Length of the key data requested for `roundCount` rounds: one half
      block per round plus two whole blocks for whitening. */
  function KeyDataLength(roundCount: nat, blockSize: nat): nat
  {
    (4 + roundCount) * (blockSize / 2)
  }

  /** `generate_round_keys(key, round_count, block_size)`. PBKDF2 refuses a
      requested length below one byte, so a block of fewer than two bytes
      has no key schedule. */
  function GenerateRoundKeys(kdf: Pbkdf2Fn, secret: seq<byte>, roundCount: nat, blockSize: nat): (km: KeyMaterial)
    requires blockSize >= 2
    ensures |km.data| == (4 + roundCount) * (blockSize / 2)
    ensures km.blockSize == blockSize
  {
    KeyMaterial(kdf(secret, KeyDataLength(roundCount, blockSize)), blockSize)
  }

  /** The round keys `0 .. n-1` laid end to end. */
  function RoundKeysConcat(km: KeyMaterial, n: nat): seq<byte>
  {
    if n == 0 then [] else RoundKeysConcat(km, n - 1) + km.RoundKey(n - 1)
  }

  /** Key material with the shape `generate_round_keys` produces. */
  predicate Derived(km: KeyMaterial, roundCount: nat)
  {
    km.blockSize % 2 == 0 && |km.data| == KeyDataLength(roundCount, km.blockSize)
  }

  lemma MulMono(h: nat, a: nat, b: nat)
    requires a <= b
    ensures h * a <= h * b
  {
  }

  /** The arithmetic behind the layout, stated once: a block is two halves,
      and the buffer is two blocks plus one half block per round. */
  lemma DerivedSizes(km: KeyMaterial, roundCount: nat)
    requires Derived(km, roundCount)
    ensures km.blockSize == 2 * km.HalfBlockSize()
    ensures |km.data| == 2 * km.blockSize + km.HalfBlockSize() * roundCount
    ensures km.RoundKeyStart(roundCount) == |km.data| - km.blockSize
  {
    var h := km.HalfBlockSize();
    assert (4 + roundCount) * h == 4 * h + roundCount * h;
  }

  /** Round key `r` of `roundCount`, for `r` in range, is a whole window of
      half a block lying between the prekey and the postkey. */
  lemma RoundKeyWindow(km: KeyMaterial, roundCount: nat, r: nat)
    requires Derived(km, roundCount)
    requires r < roundCount
    ensures km.blockSize <= km.RoundKeyStart(r)
    ensures km.RoundKeyEnd(r) <= |km.data| - km.blockSize
    ensures km.RoundKeyEnd(r) == km.RoundKeyStart(r + 1)
    ensures km.RoundKey(r) == km.data[km.RoundKeyStart(r)..km.RoundKeyEnd(r)]
    ensures |km.RoundKey(r)| == km.HalfBlockSize()
  {
    DerivedSizes(km, roundCount);
    MulMono(km.HalfBlockSize(), r + 1, roundCount);
  }

  /** The round keys `0 .. n-1` together are exactly the bytes from the end
      of the prekey up to the start of round key `n`: consecutive windows
      neither leave a gap nor overlap. */
  lemma {:induction false} RoundKeysContiguous(km: KeyMaterial, roundCount: nat, n: nat)
    requires Derived(km, roundCount)
    requires n <= roundCount
    ensures km.blockSize <= km.RoundKeyStart(n) <= |km.data|
    ensures RoundKeysConcat(km, n) == km.data[km.blockSize..km.RoundKeyStart(n)]
  {
    if n == 0 {
      DerivedSizes(km, roundCount);
    } else {
      RoundKeysContiguous(km, roundCount, n - 1);
      RoundKeyWindow(km, roundCount, n - 1);
      var start, end := km.RoundKeyStart(n - 1), km.RoundKeyStart(n);
      assert km.RoundKey(n - 1) == km.data[start..end];
      SliceConcat(km.data, km.blockSize, start, end);
    }
  }

  /** The layout of the derived buffer: the prekey is its first block, the
      postkey its last block, and prekey, the round keys in order and the
      postkey tile the whole buffer. */
  lemma {:induction false} KeyLayout(km: KeyMaterial, roundCount: nat)
    requires Derived(km, roundCount)
    ensures |km.PreKey()| == km.blockSize && km.PreKey() == km.data[..km.blockSize]
    ensures |km.PostKey()| == km.blockSize && km.PostKey() == km.data[|km.data| - km.blockSize..]
    ensures km.RoundKeyStart(roundCount) == |km.data| - km.blockSize
    ensures km.PreKey() + RoundKeysConcat(km, roundCount) + km.PostKey() == km.data
  {
    DerivedSizes(km, roundCount);
    RoundKeysContiguous(km, roundCount, roundCount);
    var n, postStart := |km.data|, km.RoundKeyStart(roundCount);
    SliceConcat(km.data, 0, km.blockSize, postStart);
    SliceConcat(km.data, 0, postStart, n);
    assert km.data[0..n] == km.data;
  }
}
