/**
 * The live envelope (crypotJS.py): OpenSSL/CryptoJS "Salted__" format with a
 * key and IV from EVP_BytesToKey, PKCS#7 padding done by hand and AES-256-CBC
 * from the `cryptography` package (supplied through `Primitives`).
 */
module CrypotJS {
  import opened Wrappers
  import opened PyBase
  import opened Primitives
  import EvpKdf

  const BlockSize := 16

  /** The ASCII bytes of "Salted__". */
  const Marker: Bytes := [0x53, 0x61, 0x6C, 0x74, 0x65, 0x64, 0x5F, 0x5F]

  /** The exceptions `decrypt` can raise. */
  datatype CipherError =
    | Base64Invalid            // b64decode raised binascii.Error
    | MarkerMismatch           // assert encrypted[0:8] == b"Salted__"
    | SaltLength(length: nat)  // assert len(salt) == 8 inside bytes_to_key
    | NotBlockAligned          // the CBC decryptor's finalize() raised ValueError
    | EmptyPlaintext           // unpad indexed data[-1] of an empty result
    | PyaesRejected            // pyaes' Decrypter raised (cryptoJS.py only)

  // ---------------------------------------------------------------- padding

  /** PKCS#7 (RFC 5652 section 6.3): append n bytes of value n, n = 16 - len % 16. */
  function Pad(data: Bytes): (r: Bytes)
    ensures |r| % BlockSize == 0
    ensures |data| < |r| <= |data| + BlockSize
    ensures |data| % BlockSize == 0 ==> |r| == |data| + BlockSize
    ensures r[..|data|] == data
    ensures forall i :: |data| <= i < |r| ==> r[i] == |r| - |data|
  {
    var n := BlockSize - |data| % BlockSize;
    data + seq(n, _ => n)
  }

  /** `data[:-data[-1]]`: drops as many bytes as the last byte says, unchecked.
      An empty input raises IndexError. */
  function Unpad(data: Bytes): (r: Result<Bytes, CipherError>)
    ensures r.Err? <==> data == []
    ensures r.Err? ==> r.error == EmptyPlaintext
    ensures r.Ok? ==> var n := data[|data| - 1];
      r.value == if n == 0 || n > |data| then [] else data[..|data| - n]
  {
    if data == [] then Err(EmptyPlaintext)
    else var n: int := data[|data| - 1]; Ok(Take(data, -n))
  }

  /** Unpadding undoes padding, for every byte string. */
  lemma UnpadPad(data: Bytes)
    ensures Unpad(Pad(data)) == Ok(data)
  {
    var p := Pad(data);
    assert p[|p| - 1] == |p| - |data|;
  }

  // ------------------------------------------------------------- derivation

  /** `bytes_to_key(data, salt, output)`, the loop as written. */
  method BytesToKey(md5: Bytes -> Bytes, data: Bytes, salt: Bytes, output: int) returns (r: Result<Bytes, EvpKdf.KdfError>)
    requires IsDigest16(md5)
    ensures r == EvpKdf.BytesToKey(md5, data, salt, output)
  {
    if |salt| != 8 {
      return Err(EvpKdf.SaltLength(|salt|));
    }
    var d := data + salt;
    var key := md5(d);
    var finalKey := key;
    ghost var k: nat := 1;
    while |finalKey| < output
      invariant k >= 1
      invariant finalKey == EvpKdf.Chain(md5, d, k)
      invariant key == EvpKdf.Block(md5, d, k - 1)
      invariant |finalKey| == 16 * k
      invariant k == 1 || 16 * (k - 1) < output
      decreases output - |finalKey|
    {
      key := md5(key + d);
      finalKey := finalKey + key;
      k := k + 1;
    }
    assert k == EvpKdf.BlocksFor(output);
    r := Ok(Take(finalKey, output));
  }

  // ---------------------------------------------------------------- envelope

  /** What `encrypt(message, passphrase)` returns when `urandom(8)` gave `salt`. */
  function Seal(prims: Primitives, message: Bytes, passphrase: Bytes, salt: Bytes): string
    requires |salt| == 8
  {
    SealWith(prims, message, salt, EvpKdf.BytesToKey(prims.md5, passphrase, salt, 32 + 16).value)
  }

  /** The envelope for derived bytes `keyIv`: key = bytes 0..32, IV = bytes 32..48. */
  function SealWith(prims: Primitives, message: Bytes, salt: Bytes, keyIv: Bytes): string {
    prims.b64encode(Marker + salt + prims.cbcEncrypt(Take(keyIv, 32), Drop(keyIv, 32), Pad(message)))
  }

  /** What `decrypt(encrypted, passphrase)` returns or raises. */
  function Open(prims: Primitives, encrypted: string, passphrase: Bytes): Result<Bytes, CipherError> {
    match prims.b64decode(encrypted)
    case None => Err(Base64Invalid)
    case Some(raw) =>
      if Slice(raw, 0, 8) != Marker then Err(MarkerMismatch)
      else
        var salt := Slice(raw, 8, 16);
        match EvpKdf.BytesToKey(prims.md5, passphrase, salt, 32 + 16)
        case Err(e) => Err(SaltLength(e.length))
        case Ok(keyIv) =>
          var ct := Drop(raw, 16);
          if |ct| % BlockSize != 0 then Err(NotBlockAligned)
          else Unpad(prims.cbcDecrypt(Take(keyIv, 32), Drop(keyIv, 32), ct))
  }

  /** `encrypt(message, passphrase)`; `salt` is what `urandom(8)` returned. */
  method Encrypt(prims: Primitives, message: Bytes, passphrase: Bytes, salt: Bytes) returns (r: string)
    requires prims.Valid() && |salt| == 8
    ensures r == Seal(prims, message, passphrase, salt)
  {
    var keyIv := BytesToKey(prims.md5, passphrase, salt, 32 + 16);
    var key := Take(keyIv.value, 32);
    var iv := Drop(keyIv.value, 32);
    var ct := prims.cbcEncrypt(key, iv, Pad(message));
    r := prims.b64encode(Marker + salt + ct);
  }

  /** `decrypt(encrypted, passphrase)` */
  method Decrypt(prims: Primitives, encrypted: string, passphrase: Bytes) returns (r: Result<Bytes, CipherError>)
    requires prims.Valid()
    ensures r == Open(prims, encrypted, passphrase)
  {
    var raw := prims.b64decode(encrypted);
    if raw.None? {
      return Err(Base64Invalid);
    }
    if Slice(raw.value, 0, 8) != Marker {
      return Err(MarkerMismatch);
    }
    var salt := Slice(raw.value, 8, 16);
    var keyIv := BytesToKey(prims.md5, passphrase, salt, 32 + 16);
    if keyIv.Err? {
      return Err(SaltLength(keyIv.error.length));
    }
    var key := Take(keyIv.value, 32);
    var iv := Drop(keyIv.value, 32);
    var ct := Drop(raw.value, 16);
    if |ct| % BlockSize != 0 {
      return Err(NotBlockAligned);
    }
    r := Unpad(prims.cbcDecrypt(key, iv, ct));
  }

  /** The 48 derived bytes split into a 32-byte AES key and a 16-byte IV. */
  lemma KeyIvSplit(prims: Primitives, passphrase: Bytes, salt: Bytes)
    requires IsDigest16(prims.md5) && |salt| == 8
    ensures var keyIv := EvpKdf.BytesToKey(prims.md5, passphrase, salt, 32 + 16).value;
      && |keyIv| == 48
      && |Take(keyIv, 32)| == 32 && |Drop(keyIv, 32)| == 16
      && Take(keyIv, 32) + Drop(keyIv, 32) == keyIv
  {
    EvpKdf.DerivedLength(prims.md5, passphrase, salt, 32 + 16);
    var keyIv := EvpKdf.BytesToKey(prims.md5, passphrase, salt, 32 + 16).value;
    assert keyIv[..32] + keyIv[32..] == keyIv;
  }

  /** The envelope is base64 of "Salted__" ++ salt ++ ciphertext, and the
      ciphertext is the padded message: a positive multiple of 16 bytes,
      longer than the message, a whole extra block when the message is aligned. */
  lemma EnvelopeLayout(prims: Primitives, message: Bytes, passphrase: Bytes, salt: Bytes)
    requires prims.Valid() && |salt| == 8
    ensures prims.b64decode(Seal(prims, message, passphrase, salt)).Some?
    ensures var raw := prims.b64decode(Seal(prims, message, passphrase, salt)).value;
      && |raw| >= 16 + BlockSize
      && raw[..8] == Marker
      && raw[8..16] == salt
      && (|raw| - 16) % BlockSize == 0
      && |message| < |raw| - 16 <= |message| + BlockSize
      && (|message| % BlockSize == 0 ==> |raw| - 16 == |message| + BlockSize)
  {
    KeyIvSplit(prims, passphrase, salt);
    SealWithLayout(prims, message, salt, EvpKdf.BytesToKey(prims.md5, passphrase, salt, 32 + 16).value);
  }

  lemma SealWithLayout(prims: Primitives, message: Bytes, salt: Bytes, keyIv: Bytes)
    requires prims.CbcInverse() && prims.Base64Inverse()
    requires |salt| == 8 && |keyIv| == 48
    ensures prims.b64decode(SealWith(prims, message, salt, keyIv)).Some?
    ensures var raw := prims.b64decode(SealWith(prims, message, salt, keyIv)).value;
      && |raw| >= 16 + BlockSize
      && raw[..8] == Marker
      && raw[8..16] == salt
      && (|raw| - 16) % BlockSize == 0
      && |message| < |raw| - 16 <= |message| + BlockSize
      && (|message| % BlockSize == 0 ==> |raw| - 16 == |message| + BlockSize)
  {
    var padded := Pad(message);
    var ct := prims.cbcEncrypt(Take(keyIv, 32), Drop(keyIv, 32), padded);
    assert |ct| == |padded|;
    var raw := Marker + salt + ct;
    assert prims.b64decode(prims.b64encode(raw)) == Some(raw);
    assert SealWith(prims, message, salt, keyIv) == prims.b64encode(raw);
    FrameLayout(salt, ct);
  }

  /** The envelope "Salted__" ++ salt ++ ct: marker, salt and ciphertext
      occupy bytes 0..8, 8..16 and 16.., and it is whole blocks after its
      header exactly when the ciphertext is. */
  lemma FrameLayout(salt: Bytes, ct: Bytes)
    requires |salt| == 8
    ensures var raw := Marker + salt + ct;
      && raw[..8] == Marker && raw[8..16] == salt && raw[16..] == ct
      && |raw| - 16 == |ct|
      && ((|raw| - 16) % BlockSize == 0 <==> |ct| % BlockSize == 0)
  {
    var raw := Marker + salt + ct;
    assert raw[16..] == ct;
  }

  /** What `decrypt` slices out of a decoded envelope of at least 16 bytes:
      `[0:8]` is the marker field, `[8:16]` the salt, `[16:]` the ciphertext,
      which is whole blocks exactly when the envelope is after its header. */
  lemma HeaderSlices(raw: Bytes)
    requires |raw| >= 16
    ensures Slice(raw, 0, 8) == raw[..8] && Slice(raw, 8, 16) == raw[8..16]
    ensures Drop(raw, 16) == raw[16..] && |Drop(raw, 16)| == |raw| - 16
    ensures (|raw| - 16) % BlockSize == 0 <==> |Drop(raw, 16)| % BlockSize == 0
  {
    assert SliceIndex(16, |raw|) == 16;
  }

  /** Round trip: decrypting an envelope with the passphrase it was made with
      gives back the message, for every message and salt. */
  lemma RoundTrip(prims: Primitives, message: Bytes, passphrase: Bytes, salt: Bytes)
    requires prims.Valid() && |salt| == 8
    ensures Open(prims, Seal(prims, message, passphrase, salt), passphrase) == Ok(message)
  {
    KeyIvSplit(prims, passphrase, salt);
    var keyIv := EvpKdf.BytesToKey(prims.md5, passphrase, salt, 32 + 16).value;
    var key, iv := Take(keyIv, 32), Drop(keyIv, 32);
    var ct := prims.cbcEncrypt(key, iv, Pad(message));
    var raw := Marker + salt + ct;
    assert prims.b64decode(prims.b64encode(raw)) == Some(raw);
    assert Slice(raw, 0, 8) == Marker;
    assert Slice(raw, 8, 16) == salt;
    assert Drop(raw, 16) == ct;
    assert prims.cbcDecrypt(key, iv, ct) == Pad(message);
    UnpadPad(message);
  }

  /** How `decrypt` fails, cause by cause: undecodable text, a missing
      "Salted__" marker, fewer than 16 bytes (the salt assertion), a ciphertext
      that is not whole blocks, and an empty ciphertext (unpad of nothing). */
  lemma OpenFailures(prims: Primitives, encrypted: string, passphrase: Bytes)
    requires prims.Valid()
    ensures Open(prims, encrypted, passphrase) == Err(Base64Invalid) <==> prims.b64decode(encrypted).None?
    ensures prims.b64decode(encrypted).Some? ==>
      var raw := prims.b64decode(encrypted).value;
      var r := Open(prims, encrypted, passphrase);
      && (r == Err(MarkerMismatch) <==> |raw| < 8 || raw[..8] != Marker)
      && (r.Err? && r.error.SaltLength? <==> 8 <= |raw| < 16 && raw[..8] == Marker)
      && (r == Err(NotBlockAligned) <==> |raw| >= 16 && raw[..8] == Marker && (|raw| - 16) % BlockSize != 0)
      && (r == Err(EmptyPlaintext) <==> |raw| == 16 && raw[..8] == Marker)
  {
    var d := prims.b64decode(encrypted);
    if d.Some? {
      var raw := d.value;
      if |raw| >= 8 {
        assert Slice(raw, 0, 8) == raw[..8];
        if raw[..8] == Marker {
          if |raw| < 16 {
            OpenShort(prims, encrypted, passphrase, raw);
          } else {
            OpenFramed(prims, encrypted, passphrase, raw);
          }
        }
      }
    }
  }

  lemma OpenShort(prims: Primitives, encrypted: string, passphrase: Bytes, raw: Bytes)
    requires prims.b64decode(encrypted) == Some(raw)
    requires 8 <= |raw| < 16 && raw[..8] == Marker
    ensures Open(prims, encrypted, passphrase) == Err(SaltLength(|raw| - 8))
  {
    assert Slice(raw, 0, 8) == Marker;
    assert |Slice(raw, 8, 16)| == |raw| - 8;
  }

  lemma OpenFramed(prims: Primitives, encrypted: string, passphrase: Bytes, raw: Bytes)
    requires IsDigest16(prims.md5) && prims.CbcDecryptLength()
    requires prims.b64decode(encrypted) == Some(raw)
    requires |raw| >= 16 && raw[..8] == Marker
    ensures var r := Open(prims, encrypted, passphrase);
      && (r == Err(NotBlockAligned) <==> (|raw| - 16) % BlockSize != 0)
      && (r == Err(EmptyPlaintext) <==> |raw| == 16)
      && r != Err(MarkerMismatch) && !(r.Err? && r.error.SaltLength?)
  {
    HeaderSlices(raw);
    var salt := Slice(raw, 8, 16);
    KeyIvSplit(prims, passphrase, salt);
    var keyIv := EvpKdf.BytesToKey(prims.md5, passphrase, salt, 32 + 16).value;
    var ct := Drop(raw, 16);
    if |ct| % BlockSize == 0 {
      var pt := prims.cbcDecrypt(Take(keyIv, 32), Drop(keyIv, 32), ct);
      assert |pt| == |ct|;
      assert Open(prims, encrypted, passphrase) == Unpad(pt);
      assert pt == [] <==> |raw| == 16;
    } else {
      assert Open(prims, encrypted, passphrase) == Err(NotBlockAligned);
    }
  }

  /** `decrypt` checks no padding: any well-framed envelope whose ciphertext is
      a non-empty whole number of blocks decrypts to something, whatever its
      last byte. */
  lemma OpenIgnoresPadding(prims: Primitives, encrypted: string, passphrase: Bytes, raw: Bytes)
    requires prims.Valid()
    requires prims.b64decode(encrypted) == Some(raw)
    requires |raw| >= 16 + BlockSize && raw[..8] == Marker && (|raw| - 16) % BlockSize == 0
    ensures Open(prims, encrypted, passphrase).Ok?
  {
    var salt := raw[8..16];
    assert Slice(raw, 0, 8) == Marker;
    assert Slice(raw, 8, 16) == salt;
    KeyIvSplit(prims, passphrase, salt);
    var keyIv := EvpKdf.BytesToKey(prims.md5, passphrase, salt, 32 + 16).value;
    HeaderSlices(raw);
    var ct := Drop(raw, 16);
    var pt := prims.cbcDecrypt(Take(keyIv, 32), Drop(keyIv, 32), ct);
    assert |pt| == |ct|;
    assert Open(prims, encrypted, passphrase) == Unpad(pt);
  }
}
