/** The cryptographic primitives as parameters, with the assumptions the filter relies on. */
module Crypto {
  import opened Outcomes
  import opened Bytes

  const IV_LENGTH := 16
  const DIGEST_LENGTH := 32

  datatype Primitives = Primitives(
    cbcEncrypt: (ByteString, ByteString, ByteString) -> ByteString,          // key, IV, plaintext
    cbcDecrypt: (ByteString, ByteString, ByteString) -> Option<ByteString>,  // key, IV, ciphertext
    hmac: (ByteString, ByteString) -> ByteString,                            // key, data
    sha256: ByteString -> ByteString)
  {
    /** Decryption undoes encryption, HMAC does not collide; SHA-256 may. */
    ghost predicate Valid() {
      && (forall key, iv, m :: cbcDecrypt(key, iv, cbcEncrypt(key, iv, m)) == Some(m))
      && (forall key, m, m' :: hmac(key, m) == hmac(key, m') ==> m == m')
      && (forall m :: |sha256(m)| == DIGEST_LENGTH)
    }

    /** AESEncrypt: the IV is stored in front of the ciphertext. */
    function AesEncrypt(key: ByteString, iv: ByteString, m: ByteString): ByteString {
      iv + cbcEncrypt(key, iv, m)
    }

    /** AESDecrypt. */
    function AesDecrypt(key: ByteString, data: ByteString): Result<ByteString> {
      if |data| < IV_LENGTH then Err(DecryptionFailed)
      else match cbcDecrypt(key, data[..IV_LENGTH], data[IV_LENGTH..])
        case Some(m) => Ok(m)
        case None => Err(DecryptionFailed)
    }

    /** The text of a cell for an encrypted value, as generateCryptoString builds it. */
    function CipherText(key: ByteString, iv: ByteString, m: ByteString): ByteString {
      ByteaText(AesEncrypt(key, iv, m))
    }

    /** What EncryptionMutator::mutateDataRow makes of the text of an encrypted cell. */
    function DecryptCell(key: ByteString, text: ByteString): Result<ByteString> {
      if |text| < 2 then Err(DecryptionFailed) else AesDecrypt(key, ByteaValue(text))
    }

    lemma DecryptCipherText(key: ByteString, iv: ByteString, m: ByteString)
      requires Valid() && |iv| == IV_LENGTH
      ensures DecryptCell(key, CipherText(key, iv, m)) == Ok(m)
    {
      var data := AesEncrypt(key, iv, m);
      ByteaRoundTrip(data);
      assert data[..IV_LENGTH] == iv && data[IV_LENGTH..] == cbcEncrypt(key, iv, m);
    }

    /** The text of a blind index cell. */
    function BlindIndexText(key: ByteString, data: ByteString): ByteString { ByteaText(hmac(key, data)) }

    lemma BlindIndexInjective(key: ByteString, a: ByteString, b: ByteString)
      requires Valid()
      ensures BlindIndexText(key, a) == BlindIndexText(key, b) <==> a == b
    {
      ByteaRoundTrip(hmac(key, a));
      ByteaRoundTrip(hmac(key, b));
    }

    /** The text of a join key cell: the first bytes of the digest. */
    function JoinKeyText(size: nat, data: ByteString): ByteString {
      var hash := sha256(data);
      ByteaText(if size <= |hash| then hash[..size] else hash)
    }
  }
}
