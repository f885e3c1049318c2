/**
 * The alternate envelope (cryptoJS.py): the same "Salted__" framing and
 * EVP_BytesToKey derivation, with padding and AES-256-CBC both left to
 * pyaes' Encrypter/Decrypter (supplied through `Primitives`).
 */
module CryptoJS {
  import opened Wrappers
  import opened PyBase
  import opened Primitives
  import EvpKdf
  import CrypotJS

  /** `bytes_to_key(data, salt, output)`: the same loop as crypotJS.py's. */
  method BytesToKey(md5: Bytes -> Bytes, data: Bytes, salt: Bytes, output: int) returns (r: Result<Bytes, EvpKdf.KdfError>)
    requires IsDigest16(md5)
    ensures r == EvpKdf.BytesToKey(md5, data, salt, output)
  {
    if |salt| != 8 {
      return Err(EvpKdf.SaltLength(|salt|));
    }
    var d := data + salt;
    var key := md5(d);
    var finalKey := key;
    ghost var k: nat := 1;
    while |finalKey| < output
      invariant k >= 1
      invariant finalKey == EvpKdf.Chain(md5, d, k)
      invariant key == EvpKdf.Block(md5, d, k - 1)
      invariant |finalKey| == 16 * k
      invariant k == 1 || 16 * (k - 1) < output
      decreases output - |finalKey|
    {
      key := md5(key + d);
      finalKey := finalKey + key;
      k := k + 1;
    }
    assert k == EvpKdf.BlocksFor(output);
    r := Ok(Take(finalKey, output));
  }

  /** What `encrypt(message, passphrase)` returns when `urandom(8)` gave `salt`. */
  function Seal(prims: Primitives, message: Bytes, passphrase: Bytes, salt: Bytes): string
    requires |salt| == 8
  {
    SealWith(prims, message, salt, EvpKdf.BytesToKey(prims.md5, passphrase, salt, 32 + 16).value)
  }

  /** The envelope for derived bytes `keyIv`: key = bytes 0..32, IV = bytes 32..48. */
  function SealWith(prims: Primitives, message: Bytes, salt: Bytes, keyIv: Bytes): string {
    prims.b64encode(CrypotJS.Marker + salt + prims.pyaesEncrypt(Take(keyIv, 32), Drop(keyIv, 32), message))
  }

  /** What `decrypt(encrypted, passphrase)` returns or raises. */
  function Open(prims: Primitives, encrypted: string, passphrase: Bytes): Result<Bytes, CrypotJS.CipherError> {
    match prims.b64decode(encrypted)
    case None => Err(CrypotJS.Base64Invalid)
    case Some(raw) =>
      if Slice(raw, 0, 8) != CrypotJS.Marker then Err(CrypotJS.MarkerMismatch)
      else
        var salt := Slice(raw, 8, 16);
        match EvpKdf.BytesToKey(prims.md5, passphrase, salt, 32 + 16)
        case Err(e) => Err(CrypotJS.SaltLength(e.length))
        case Ok(keyIv) =>
          match prims.pyaesDecrypt(Take(keyIv, 32), Drop(keyIv, 32), Drop(raw, 16))
          case None => Err(CrypotJS.PyaesRejected)
          case Some(m) => Ok(m)
  }

  /** `encrypt(message, passphrase)`; `salt` is what `urandom(8)` returned. */
  method Encrypt(prims: Primitives, message: Bytes, passphrase: Bytes, salt: Bytes) returns (r: string)
    requires prims.Valid() && |salt| == 8
    ensures r == Seal(prims, message, passphrase, salt)
  {
    var keyIv := BytesToKey(prims.md5, passphrase, salt, 32 + 16);
    var key := Take(keyIv.value, 32);
    var iv := Drop(keyIv.value, 32);
    var ciphertext := prims.pyaesEncrypt(key, iv, message);
    r := prims.b64encode(CrypotJS.Marker + salt + ciphertext);
  }

  /** `decrypt(encrypted, passphrase)` */
  method Decrypt(prims: Primitives, encrypted: string, passphrase: Bytes) returns (r: Result<Bytes, CrypotJS.CipherError>)
    requires prims.Valid()
    ensures r == Open(prims, encrypted, passphrase)
  {
    var raw := prims.b64decode(encrypted);
    if raw.None? {
      return Err(CrypotJS.Base64Invalid);
    }
    if Slice(raw.value, 0, 8) != CrypotJS.Marker {
      return Err(CrypotJS.MarkerMismatch);
    }
    var salt := Slice(raw.value, 8, 16);
    var keyIv := BytesToKey(prims.md5, passphrase, salt, 32 + 16);
    if keyIv.Err? {
      return Err(CrypotJS.SaltLength(keyIv.error.length));
    }
    var key := Take(keyIv.value, 32);
    var iv := Drop(keyIv.value, 32);
    var decrypted := prims.pyaesDecrypt(key, iv, Drop(raw.value, 16));
    if decrypted.None? {
      return Err(CrypotJS.PyaesRejected);
    }
    r := Ok(decrypted.value);
  }

  /** The envelope is base64 of "Salted__" ++ salt ++ ciphertext, the
      ciphertext being the PKCS#7-padded length of the message. */
  lemma EnvelopeLayout(prims: Primitives, message: Bytes, passphrase: Bytes, salt: Bytes)
    requires prims.Valid() && |salt| == 8
    ensures prims.b64decode(Seal(prims, message, passphrase, salt)).Some?
    ensures var raw := prims.b64decode(Seal(prims, message, passphrase, salt)).value;
      && raw[..8] == CrypotJS.Marker
      && raw[8..16] == salt
      && |raw| - 16 == |CrypotJS.Pad(message)|
  {
    CrypotJS.KeyIvSplit(prims, passphrase, salt);
    var keyIv := EvpKdf.BytesToKey(prims.md5, passphrase, salt, 32 + 16).value;
    var ct := prims.pyaesEncrypt(Take(keyIv, 32), Drop(keyIv, 32), message);
    var raw := CrypotJS.Marker + salt + ct;
    assert prims.b64decode(prims.b64encode(raw)) == Some(raw);
    assert raw[..8] == CrypotJS.Marker && raw[8..16] == salt;
    assert |ct| == (|message| / 16 + 1) * 16;
  }

  /** Round trip through pyaes, for every message and salt. */
  lemma RoundTrip(prims: Primitives, message: Bytes, passphrase: Bytes, salt: Bytes)
    requires prims.Valid() && |salt| == 8
    ensures Open(prims, Seal(prims, message, passphrase, salt), passphrase) == Ok(message)
  {
    CrypotJS.KeyIvSplit(prims, passphrase, salt);
    var keyIv := EvpKdf.BytesToKey(prims.md5, passphrase, salt, 32 + 16).value;
    var key, iv := Take(keyIv, 32), Drop(keyIv, 32);
    var ct := prims.pyaesEncrypt(key, iv, message);
    var raw := CrypotJS.Marker + salt + ct;
    assert prims.b64decode(prims.b64encode(raw)) == Some(raw);
    assert Slice(raw, 0, 8) == CrypotJS.Marker;
    assert Slice(raw, 8, 16) == salt;
    assert Drop(raw, 16) == ct;
  }
}
