/** The NTRU entry points of the extension (`ntru.rs`): byte-length validation and
    error wording around a key-encapsulation mechanism that is left opaque. The sizes
    are those of whichever ntrust-native parameter set the build selects; the model
    fixes none of them. */
module Ntru {
  import opened Wrappers
  import opened Python
  import opened Bytes

  const CryptoPublicKeyBytes: nat
  const CryptoSecretKeyBytes: nat
  const CryptoCiphertextBytes: nat
  const CryptoBytes: nat

  type PublicKey = k: seq<byte> | |k| == CryptoPublicKeyBytes witness seq(CryptoPublicKeyBytes, _ => 0)
  type SecretKey = k: seq<byte> | |k| == CryptoSecretKeyBytes witness seq(CryptoSecretKeyBytes, _ => 0)
  type Ciphertext = c: seq<byte> | |c| == CryptoCiphertextBytes witness seq(CryptoCiphertextBytes, _ => 0)
  type SharedSecret = s: seq<byte> | |s| == CryptoBytes witness seq(CryptoBytes, _ => 0)

  /** The 48 bytes of operating-system entropy that seed the AES-CTR generator. */
  type Entropy = e: seq<byte> | |e| == 48 witness seq(48, _ => 0)

  datatype KeyPair = KeyPair(publicKey: PublicKey, secretKey: SecretKey)
  datatype Encapsulation = Encapsulation(ciphertext: Ciphertext, sharedSecret: SharedSecret)

  /** The three ntrust-native calls over fixed-size arrays. An error is given as its
      `{:?}` rendering. */
  datatype Kem = Kem(
    keypair: Entropy -> Result<KeyPair, string>,
    enc: (PublicKey, Entropy) -> Result<Encapsulation, string>,
    dec: (Ciphertext, SecretKey) -> Result<SharedSecret, string>)

  const InvalidPublicKeyLength := "Invalid public key length"
  const InvalidPrivateKeyLength := "Invalid private key length"
  const InvalidCiphertextLength := "Invalid ciphertext length"
  const KeyPairPrefix := "Failed to generate key pair: "
  const EncryptionPrefix := "Encryption failed: "
  const DecryptionPrefix := "Decryption failed: "

  /** `<[u8; k]>::try_from(bytes)`: a fixed-size array exactly when the length is `k`. */
  function TryInto(bs: seq<byte>, k: nat): (r: Option<seq<byte>>)
    ensures r.Some? <==> |bs| == k
    ensures r.Some? ==> r.value == bs
  {
    if |bs| == k then Some(bs) else None
  }

  /** `ntru_generate_keypair()`: both keys at their exact sizes, or a `ValueError`
      carrying the library's error. */
  function NtruGenerateKeypair(kem: Kem, entropy: Entropy): (r: Outcome<(seq<byte>, seq<byte>)>)
    ensures r.Returned? ==> |r.value.0| == CryptoPublicKeyBytes && |r.value.1| == CryptoSecretKeyBytes
    ensures r.Returned? ==> kem.keypair(entropy) == Ok(KeyPair(r.value.0, r.value.1))
    ensures r.Raised? ==>
      && kem.keypair(entropy).Err?
      && r.exception == Error(KeyPairPrefix + kem.keypair(entropy).error)
  {
    match kem.keypair(entropy)
    case Ok(kp) => Returned((kp.publicKey, kp.secretKey))
    case Err(e) => Fail(KeyPairPrefix + e)
  }

  /** `ntru_encapsulate(public_key)`. A key of the wrong length is refused before the
      generator is seeded or the library is reached; once the length is right the
      array conversion cannot fail, so the only other error is the library's. */
  function NtruEncapsulate(kem: Kem, publicKey: seq<byte>, entropy: Entropy): (r: Outcome<(seq<byte>, seq<byte>)>)
    ensures |publicKey| != CryptoPublicKeyBytes <==> r == Fail(InvalidPublicKeyLength)
    ensures r.Returned? ==>
      && |r.value.0| == CryptoCiphertextBytes && |r.value.1| == CryptoBytes
      && kem.enc(publicKey, entropy) == Ok(Encapsulation(r.value.0, r.value.1))
    ensures r.Raised? && |publicKey| == CryptoPublicKeyBytes ==>
      && kem.enc(publicKey, entropy).Err?
      && r.exception == Error(EncryptionPrefix + kem.enc(publicKey, entropy).error)
  {
    if |publicKey| != CryptoPublicKeyBytes then Fail(InvalidPublicKeyLength)
    else
      match TryInto(publicKey, CryptoPublicKeyBytes)
      case None => Fail("Failed to convert public key")
      case Some(pk) =>
        match kem.enc(pk, entropy)
        case Ok(en) => Returned((en.ciphertext, en.sharedSecret))
        case Err(e) =>
          assert EncryptionPrefix + e != InvalidPublicKeyLength by {
            assert (EncryptionPrefix + e)[0] == 'E';
          }
          Fail(EncryptionPrefix + e)
  }

  /** `ntru_decapsulate(private_key, ciphertext)`: the private key's length is checked
      first, so with both wrong the private-key error is the one reported. */
  function NtruDecapsulate(kem: Kem, privateKey: seq<byte>, ciphertext: seq<byte>): (r: Outcome<seq<byte>>)
    ensures |privateKey| != CryptoSecretKeyBytes <==> r == Fail(InvalidPrivateKeyLength)
    ensures |privateKey| == CryptoSecretKeyBytes && |ciphertext| != CryptoCiphertextBytes
      <==> r == Fail(InvalidCiphertextLength)
    ensures r.Returned? ==>
      && |r.value| == CryptoBytes
      && kem.dec(ciphertext, privateKey) == Ok(r.value)
    ensures r.Raised? && |privateKey| == CryptoSecretKeyBytes && |ciphertext| == CryptoCiphertextBytes ==>
      && kem.dec(ciphertext, privateKey).Err?
      && r.exception == Error(DecryptionPrefix + kem.dec(ciphertext, privateKey).error)
  {
    if |privateKey| != CryptoSecretKeyBytes then Fail(InvalidPrivateKeyLength)
    else if |ciphertext| != CryptoCiphertextBytes then Fail(InvalidCiphertextLength)
    else
      match (TryInto(privateKey, CryptoSecretKeyBytes), TryInto(ciphertext, CryptoCiphertextBytes))
      case (None, _) => Fail("Failed to convert private key")
      case (_, None) => Fail("Failed to convert ciphertext")
      case (Some(sk), Some(ct)) =>
        match kem.dec(ct, sk)
        case Ok(ss) => Returned(ss)
        case Err(e) =>
          assert (DecryptionPrefix + e)[0] == 'D';
          Fail(DecryptionPrefix + e)
  }

  /** The decapsulated secret is the encapsulated one whenever the mechanism is
      correct for the pair: `ntru_decapsulate` adds nothing that could break it. */
  lemma KemRoundTrip(kem: Kem, keyEntropy: Entropy, encEntropy: Entropy)
    requires kem.keypair(keyEntropy).Ok?
    requires var kp := kem.keypair(keyEntropy).value;
      kem.enc(kp.publicKey, encEntropy).Ok? ==>
      kem.dec(kem.enc(kp.publicKey, encEntropy).value.ciphertext, kp.secretKey)
        == Ok(kem.enc(kp.publicKey, encEntropy).value.sharedSecret)
    ensures var keys := NtruGenerateKeypair(kem, keyEntropy);
      && keys.Returned?
      && var en := NtruEncapsulate(kem, keys.value.0, encEntropy);
         en.Returned? ==> NtruDecapsulate(kem, keys.value.1, en.value.0) == Returned(en.value.1)
  {
  }
}
