# Feistel cipher model

A Dafny model of `FeistelNetwork` (`feistel.py`), a teaching block cipher:

- a Feistel network on 64-byte blocks with ten rounds;
- a round function that XORs the right half with a 32-byte round key, hashes the result with SHA-256, and XORs the digest into the left half;
- whitening with a 64-byte prekey before the rounds and a 64-byte postkey after them;
- one buffer of key data, derived from the secret with PBKDF2-HMAC-SHA256 and cut into the prekey, ten round keys and the postkey.

The model has three modules:

- `Bytes` (`bytes.dfy`) — bytes as `bv8`. It has Python's clamping slices `s[lo:hi]` and `s[-n:]`, and `_xor`. Because the operands have equal lengths, `_xor` is a byte-by-byte XOR whatever the byte order.
- `KeySchedule` (`key_schedule.dfy`) — `generate_round_keys` for any round count and block size:
  - the request of `(4 + rounds) * (blockSize / 2)` bytes;
  - the three views `prekey`, `roundkeys(r)` and `postkey` as members of `KeyMaterial`;
  - lemmas showing that the views tile the buffer with no gap and no overlap.
- `Feistel` (`feistel.dfy`) — `_split`, `_reverse`, `round` and the two block procedures.
  - `EncryptRounds` and `DecryptRounds` specify the two loops: rounds `0 .. n-1` ascending, and rounds `n-1 .. 0` descending.
  - `Encrypt` and `Decrypt` specify the whole block procedures.
  - The class `FeistelNetwork` holds the derived key material and the digest function. Both are immutable after construction, as in the source.
  - Its `for` loops are methods with loop invariants, proved against `EncryptRounds` and `DecryptRounds`.
  - `EncryptBlock` and `DecryptBlock` are proved equal to `Encrypt` and `Decrypt`, and those two are proved inverse to each other.

SHA-256 and PBKDF2 enter as function-valued parameters:

- `Sha256Fn` returns a `Digest`, a byte string of exactly 32 bytes.
- `Pbkdf2Fn` returns exactly the requested number of bytes.

Every property below holds for every such function. So the round-trip theorems do not depend on anything about SHA-256 beyond its digest length.

## Model

| member | source | states |
|---|---|---|
| Bytes.Slice | feistel.py:26-27 | `s[lo:hi]` with Python's clamping: the exact slice when the bounds are in range, empty when the start is past the end or past the string, never longer than `s` |
| Bytes.Tail | feistel.py:28 | `s[-n:]`: the last `n` elements when `0 < n <= len(s)`, the whole string when `n == 0` (since `-0 == 0`) or when `n` exceeds the length |
| Bytes.Xor | feistel.py:33-37 | `_xor` of two equally long byte strings keeps the length of the first operand |
| Bytes.XorBytewise | feistel.py:33-37 | byte `i` of `_xor(a, b)` is `a[i] ^ b[i]` for every index |
| Bytes.XorCancel | feistel.py:33-37 | XOR-ing with the same mask twice gives back the input, the fact that makes whitening and each round reversible |
| KeySchedule.KeyMaterial.PreKey | feistel.py:26 | when the buffer holds at least one block, `prekey` is exactly its first `block_size` bytes |
| KeySchedule.KeyMaterial.RoundKey | feistel.py:27 | when round key `r`'s window fits in the buffer, `roundkeys(r)` is exactly the bytes `[block_size + half*r, block_size + half + half*r)` |
| KeySchedule.KeyMaterial.PostKey | feistel.py:28 | when the buffer holds at least one block, `postkey` is exactly its last `block_size` bytes |
| KeySchedule.GenerateRoundKeys | feistel.py:17-22 | for a block of at least two bytes (below that PBKDF2 refuses the request), the derived buffer has length `(4 + round_count) * (block_size // 2)` and is cut with the given block size |
| KeySchedule.DerivedSizes | feistel.py:18-22 | for an even block size, the buffer is two blocks plus one half block per round, and the round-key region ends exactly one block before the end |
| KeySchedule.RoundKeyWindow | feistel.py:24-27 | every round key `r < round_count` is a whole half-block window lying after the prekey and before the postkey, and it ends where round key `r + 1` starts |
| KeySchedule.RoundKeysContiguous | feistel.py:24-28 | round keys `0 .. n-1` laid end to end are exactly the bytes from the end of the prekey to the start of round key `n`: no gap, no overlap |
| KeySchedule.KeyLayout | feistel.py:22-28 | prekey, all round keys in order, and postkey concatenated give back the whole derived buffer; prekey and postkey are one block each |
| Feistel.CipherKeyLayout | feistel.py:12-28 | for the cipher's parameters: 448 bytes of key data, prekey `[0, 64)`, postkey `[384, 448)`, round key `r` at `[64 + 32r, 96 + 32r)` inside `[64, 384)`, and the views tile the buffer |
| Feistel.WhiteningKeyLengths | feistel.py:26-28 | both whitening keys of the cipher are whole 64-byte blocks |
| Feistel.RoundKeyLength | feistel.py:27 | each of the ten round keys is 32 bytes, so each `_xor(R, round_key)` has equal operands |
| Feistel.Split | feistel.py:39-43 | `_split`: the two halves joined give back the block, and a 64-byte block splits into two 32-byte halves |
| Feistel.Reverse | feistel.py:45-47 | `_reverse` keeps the length, and on a 64-byte block its halves are the input's halves swapped |
| Feistel.ReverseInvolution | feistel.py:45-47 | swapping the halves twice gives back the block |
| Feistel.Round | feistel.py:49-59 | `round` maps a 64-byte block and a 32-byte round key to a 64-byte block |
| Feistel.RoundHalves | feistel.py:49-59 | after `round`, the new left half is the old right half, and the new right half is the old left half XOR `SHA256(R XOR round_key)` |
| Feistel.RoundInvolution | feistel.py:45-59 | the Feistel property: round, swap, the same round, swap gives back the block, for every digest function |
| Feistel.UndoRound | feistel.py:49-59 | if swapping `y` gives `round(x, k)`, then `round(y, k)` is `x` swapped |
| Feistel.EncryptRounds | feistel.py:66-67 | the first `n` rounds of `encrypt_block`, keys ascending, keep the block 64 bytes long |
| Feistel.DecryptRounds | feistel.py:83-84 | the last `n` rounds of `decrypt_block`, keys descending, keep the block 64 bytes long |
| Feistel.DecryptRoundsFirst | feistel.py:83-84 | the descending rounds `n .. 0` are round `n` followed by the rounds `n-1 .. 0`; round key `n` has half-block length |
| Feistel.DecryptRoundsUndo | feistel.py:61-92 | for every `n <= 10` and every block: the descending rounds `n-1 .. 0`, run on the swapped output of the ascending rounds `0 .. n-1`, give back the input once swapped |
| Feistel.EncryptRoundsUndo | feistel.py:61-92 | the ascending rounds `0 .. n-1`, run on the swapped output of the descending rounds `n-1 .. 0`, give back the input once swapped |
| Feistel.Encrypt | feistel.py:61-75 | `encrypt_block` maps a 64-byte block to a 64-byte block |
| Feistel.Decrypt | feistel.py:77-92 | `decrypt_block` maps a 64-byte block to a 64-byte block |
| Feistel.DecryptEncrypt | feistel.py:61-92 | `decrypt_block(encrypt_block(b)) == b` for every 64-byte block, every key material of the cipher's shape and every digest function |
| Feistel.EncryptDecrypt | feistel.py:61-92 | `encrypt_block(decrypt_block(b)) == b`, so encryption is a permutation of 64-byte blocks |
| Feistel.FeistelNetwork.constructor | feistel.py:12-15 | `__init__` derives the key material with ten rounds and 64-byte blocks; the instance has the cipher's key shape from then on |
| Feistel.FeistelNetwork.EncryptLoop | feistel.py:66-67 | the loop `for i in range(10)` leaves exactly the ascending rounds `0 .. 9` applied, keeping the block 64 bytes long |
| Feistel.FeistelNetwork.DecryptLoop | feistel.py:83-84 | the loop `for i in reversed(range(10))` leaves exactly the descending rounds `9 .. 0` applied; the invariant is that the rounds still to run from the current block reach the same result |
| Feistel.FeistelNetwork.EncryptBlock | feistel.py:61-75 | the method returns a 64-byte block equal to `Encrypt` of its input, so `DecryptEncrypt` applies to what it returns |
| Feistel.FeistelNetwork.DecryptBlock | feistel.py:77-92 | the method returns a 64-byte block equal to `Decrypt` of its input, so `EncryptDecrypt` applies to what it returns |

## Left out

- SHA-256 and PBKDF2-HMAC-SHA256 internals. They are parameters, `Sha256Fn` and `Pbkdf2Fn`, constrained only by their output lengths. So the PBKDF2 salt `b'Computerphile'` and its 500 iterations appear only in a comment. The concrete values of the derived keys are not modelled.
- Bytes.Xor: requires operands of equal length. It does not model `to_bytes(len(a))` on unequal operands: zero-extension of a shorter `b`, or `OverflowError` for a longer one with non-zero high bytes. The cipher only calls `_xor` with equal lengths.
- Byte order: `sys.byteorder` and the `int.from_bytes`/`to_bytes` round trip are not modelled. For equal-length operands they give a byte-by-byte XOR in either byte order, and that is how the model defines `Xor`.
- Blocks that are not 64 bytes. The source never checks the block length. A shorter block fails in the first whitening step, `_xor(block, prekey)`: `to_bytes(len(a))` raises `OverflowError` unless the prekey's extra bytes happen to be zero. A longer block goes through every step with no error. The model excludes both: `Round`, `Encrypt`, `Decrypt`, `EncryptBlock` and `DecryptBlock` require a 64-byte block.
- GenerateRoundKeys: requires `blockSize >= 2` rather than modelling the `ValueError` that `hashlib.pbkdf2_hmac` raises when the requested length is below one byte; `__init__` always passes 64.
- Negative round indices. `roundkeys` is only called with `0 <= r < 10`, so `RoundKey` takes a `nat`.
- ECB mode, padding, multiple blocks, and claims about cryptographic strength (diffusion, avalanche, key sensitivity). The source implements none of them.
- `FeistelNetwork` keeps the round count and block size as the constants `ROUND_COUNT` and `BLOCK_SIZE` rather than as instance fields, because nothing assigns them after `__init__`. The `for` loops of `encrypt_block` and `decrypt_block` are the methods `EncryptLoop` and `DecryptLoop`, which the block methods call.
