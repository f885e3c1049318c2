/**
 * OpenSSL's EVP_BytesToKey with MD5 and a single iteration, as both
 * `bytes_to_key` functions compute it: block 0 is md5(passphrase ++ salt),
 * block i+1 is md5(block i ++ passphrase ++ salt), and the blocks are
 * concatenated until there are at least `output` bytes, then truncated.
 */
module EvpKdf {
  import opened Wrappers
  import opened PyBase
  import opened Primitives

  /** `assert len(salt) == 8` failed; carries the offending length. */
  datatype KdfError = SaltLength(length: nat)

  /** The i-th digest of the chain over `data` (= passphrase ++ salt). */
  function Block(md5: Bytes -> Bytes, data: Bytes, i: nat): Bytes {
    if i == 0 then md5(data) else md5(Block(md5, data, i - 1) + data)
  }

  /** The first k digests, concatenated. */
  function Chain(md5: Bytes -> Bytes, data: Bytes, k: nat): Bytes {
    if k == 0 then [] else Chain(md5, data, k - 1) + Block(md5, data, k - 1)
  }

  /** How many digests the loop produces before `len(final_key) >= output`:
      always the first one, then as many as are still short of `output`. */
  function BlocksFor(output: int): (k: nat)
    ensures k >= 1
    ensures 16 * k >= output
    ensures k == 1 || 16 * (k - 1) < output
  {
    if output <= 16 then 1 else (output + 15) / 16
  }

  /** `bytes_to_key(data, salt, output)` */
  function BytesToKey(md5: Bytes -> Bytes, passphrase: Bytes, salt: Bytes, output: int): Result<Bytes, KdfError> {
    if |salt| != 8 then Err(SaltLength(|salt|))
    else Ok(Take(Chain(md5, passphrase + salt, BlocksFor(output)), output))
  }

  lemma {:induction false} ChainLength(md5: Bytes -> Bytes, data: Bytes, k: nat)
    requires IsDigest16(md5)
    ensures |Chain(md5, data, k)| == 16 * k
  {
    if k > 0 {
      ChainLength(md5, data, k - 1);
    }
  }

  /** Producing more digests only extends the chain. */
  lemma {:induction false} ChainPrefix(md5: Bytes -> Bytes, data: Bytes, j: nat, k: nat)
    requires j <= k
    ensures Chain(md5, data, j) <= Chain(md5, data, k)
    decreases k
  {
    if j < k {
      ChainPrefix(md5, data, j, k - 1);
    }
  }

  /** Bytes 16i .. 16i+16 of the chain are digest i. */
  lemma {:induction false} ChainBlock(md5: Bytes -> Bytes, data: Bytes, k: nat, i: nat)
    requires IsDigest16(md5)
    requires i < k
    ensures |Chain(md5, data, k)| == 16 * k
    ensures Chain(md5, data, k)[16 * i .. 16 * i + 16] == Block(md5, data, i)
    decreases k
  {
    ChainLength(md5, data, k);
    ChainLength(md5, data, k - 1);
    if i < k - 1 {
      ChainBlock(md5, data, k - 1, i);
      ChainPrefix(md5, data, k - 1, k);
    }
  }

  /** The assertion on the salt is the only way the derivation fails, and for a
      non-negative `output` it yields exactly `output` bytes. */
  lemma DerivedLength(md5: Bytes -> Bytes, passphrase: Bytes, salt: Bytes, output: int)
    requires IsDigest16(md5)
    ensures BytesToKey(md5, passphrase, salt, output).Err? <==> |salt| != 8
    ensures |salt| == 8 && output >= 0 ==> |BytesToKey(md5, passphrase, salt, output).value| == output
  {
    ChainLength(md5, passphrase + salt, BlocksFor(output));
  }

  /** Prefix stability: asking for fewer bytes gives a prefix of asking for more. */
  lemma DerivedPrefix(md5: Bytes -> Bytes, passphrase: Bytes, salt: Bytes, n: int, m: int)
    requires IsDigest16(md5)
    requires |salt| == 8 && 0 <= n <= m
    ensures |BytesToKey(md5, passphrase, salt, m).value| == m
    ensures BytesToKey(md5, passphrase, salt, n).value == BytesToKey(md5, passphrase, salt, m).value[..n]
  {
    var data := passphrase + salt;
    ChainLength(md5, data, BlocksFor(n));
    ChainLength(md5, data, BlocksFor(m));
    ChainPrefix(md5, data, BlocksFor(n), BlocksFor(m));
  }

  /** The derived bytes are the digest chain: bytes 16i .. 16i+16 are
      md5(passphrase ++ salt) for i = 0 and md5(previous digest ++ passphrase ++ salt) after. */
  lemma DerivedBlocks(md5: Bytes -> Bytes, passphrase: Bytes, salt: Bytes, output: int, i: nat)
    requires IsDigest16(md5)
    requires |salt| == 8 && 16 * i + 16 <= output
    ensures var key := BytesToKey(md5, passphrase, salt, output).value;
            && |key| == output
            && key[16 * i .. 16 * i + 16] == Block(md5, passphrase + salt, i)
            && (i == 0 ==> key[..16] == md5(passphrase + salt))
            && (i > 0 ==> key[16 * i .. 16 * i + 16] == md5(key[16 * i - 16 .. 16 * i] + passphrase + salt))
  {
    var data := passphrase + salt;
    var k := BlocksFor(output);
    DerivedLength(md5, passphrase, salt, output);
    ChainBlock(md5, data, k, i);
    if i > 0 {
      ChainBlock(md5, data, k, i - 1);
      assert Block(md5, data, i - 1) + passphrase + salt == Block(md5, data, i - 1) + data;
    }
  }
}
