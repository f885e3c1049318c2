/**
 * The library calls the envelope is built from: MD5 (`hashlib`), AES-256-CBC
 * without padding (`cryptography`), the pyaes Encrypter/Decrypter pair with
 * its default PKCS#7 padding, and base64. They are not modelled; a caller
 * supplies them as function values and `Valid()` states the only facts the
 * proofs use about them.
 */
module Primitives {
  import opened Wrappers
  import opened PyBase

  /** MD5 (RFC 1321) yields a 16-byte digest. */
  ghost predicate IsDigest16(md5: Bytes -> Bytes) {
    forall m :: |md5(m)| == 16
  }

  datatype Primitives = Primitives(
    md5: Bytes -> Bytes,
    /** AES-256-CBC over (key, iv, data), no padding: `update(data) + finalize()` */
    cbcEncrypt: (Bytes, Bytes, Bytes) -> Bytes,
    cbcDecrypt: (Bytes, Bytes, Bytes) -> Bytes,
    /** `b64encode(b).decode()`: base64 text (RFC 4648 section 4) */
    b64encode: Bytes -> string,
    /** `b64decode(s)`; `None` stands for `binascii.Error` */
    b64decode: string -> Option<Bytes>,
    /** pyaes `Encrypter(AESModeOfOperationCBC(key, iv))`: `feed(m) + feed()` */
    pyaesEncrypt: (Bytes, Bytes, Bytes) -> Bytes,
    /** pyaes `Decrypter(...)`: `feed(c) + feed()`; `None` stands for its `ValueError` */
    pyaesDecrypt: (Bytes, Bytes, Bytes) -> Option<Bytes>)
  {
    /** CBC with a 32-byte key and 16-byte IV maps whole blocks to as many bytes,
        and decryption undoes encryption. */
    ghost predicate CbcInverse() {
      forall key, iv, data | |key| == 32 && |iv| == 16 && |data| % 16 == 0 ::
        |cbcEncrypt(key, iv, data)| == |data| && cbcDecrypt(key, iv, cbcEncrypt(key, iv, data)) == data
    }

    ghost predicate CbcDecryptLength() {
      forall key, iv, data | |key| == 32 && |iv| == 16 && |data| % 16 == 0 ::
        |cbcDecrypt(key, iv, data)| == |data|
    }

    ghost predicate Base64Inverse() {
      forall b :: b64decode(b64encode(b)) == Some(b)
    }

    /** pyaes pads with PKCS#7 before encrypting, so the ciphertext is the
        padded length, and its Decrypter strips that padding again. */
    ghost predicate PyaesInverse() {
      forall key, iv, m | |key| == 32 && |iv| == 16 ::
        && |pyaesEncrypt(key, iv, m)| == (|m| / 16 + 1) * 16
        && pyaesDecrypt(key, iv, pyaesEncrypt(key, iv, m)) == Some(m)
    }

    ghost predicate Valid() {
      IsDigest16(md5) && CbcInverse() && CbcDecryptLength() && Base64Inverse() && PyaesInverse()
    }
  }
}
