/** The extension's wrappers around third-party primitives (x25519-dalek, the `rsa`
    crate, kyberlib, ntrust-native) and SHA-256. The primitives are opaque: a
    `Library` value carries them, and whatever a property needs of them (agreement,
    decryption inverting encryption) is stated where it is used. What the wrappers add
    of their own is modelled: length checks, `unwrap` panics, pyo3 argument
    conversion and the `ValueError` mapping. */
module Library {
  import opened Wrappers
  import opened Python
  import opened Bytes
  import opened Envelope
  import Ntru

  type Key32 = k: seq<byte> | |k| == 32 witness seq(32, _ => 0)

  /** Bytes drawn from the operating system's generator for one call. */
  type Coins = seq<byte>

  datatype RsaKeys = RsaKeys(privatePem: string, publicPem: string)
  datatype KemKeys = KemKeys(publicKey: seq<byte>, secretKey: seq<byte>)
  datatype Encapsulation = Encapsulation(ciphertext: seq<byte>, sharedSecret: seq<byte>)

  datatype Library = Library(
    sha: Hash,
    // `PublicKey::from(&secret)`: the X25519 base-point multiple (section 5 of RFC 7748)
    x25519Base: Key32 -> Key32,
    // `secret.diffie_hellman(&public)`
    x25519: (Key32, Key32) -> Key32,
    // PKCS#1 v1.5 encryption (section 7.2 of RFC 8017) under a PEM public key; `None`
    // when the PEM does not parse or the message is too long
    rsaEncrypt: (string, string) -> Option<seq<byte>>,
    // the matching decryption, `None` when the PEM, the padding or the UTF-8 is bad
    rsaDecrypt: (string, seq<byte>) -> Option<string>,
    kyberKeypair: Coins -> Result<KemKeys, string>,
    kyberEncapsulate: (seq<byte>, Coins) -> Result<Encapsulation, string>,
    kyberDecapsulate: (seq<byte>, seq<byte>) -> Result<seq<byte>, string>,
    ntru: Ntru.Kem)

  /** The message of `Result::unwrap` on a failed slice-to-array conversion. */
  const SliceUnwrapPanic := "called `Result::unwrap()` on an `Err` value: TryFromSliceError(())"
  const RsaUnwrapPanic := "called `Result::unwrap()` on an `Err` value"

  /** `generate_ecdh_key()` once the 32 secret bytes are drawn. */
  function GenerateEcdhKey(lib: Library, secret: Key32): (Key32, Key32)
  {
    (secret, lib.x25519Base(secret))
  }

  /** `derive_ecdh_shared_key(private, public)`: both must be exactly 32 bytes, the
      private key being checked first; a wrong length is an `unwrap` panic, not an
      exception. */
  function DeriveEcdhSharedKey(lib: Library, privateKey: seq<byte>, publicKey: seq<byte>): (r: Outcome<seq<byte>>)
    ensures r.Returned? <==> |privateKey| == 32 && |publicKey| == 32
    ensures r.Returned? ==> r.value == lib.x25519(privateKey, publicKey) && |r.value| == 32
    ensures r.Raised? ==> r == Abort(SliceUnwrapPanic)
  {
    if |privateKey| != 32 then Abort(SliceUnwrapPanic)
    else if |publicKey| != 32 then Abort(SliceUnwrapPanic)
    else Returned(lib.x25519(privateKey, publicKey))
  }

  /** A key pair from `generate_ecdh_key` is accepted by `derive_ecdh_shared_key`
      without a length panic, and when X25519 agrees on the two secrets (section 6.1 of
      RFC 7748) both sides derive the same 32 bytes. */
  lemma EcdhAgreement(lib: Library, a: Key32, b: Key32)
    requires lib.x25519(a, lib.x25519Base(b)) == lib.x25519(b, lib.x25519Base(a))
    ensures DeriveEcdhSharedKey(lib, GenerateEcdhKey(lib, a).0, GenerateEcdhKey(lib, b).1).Returned?
    ensures DeriveEcdhSharedKey(lib, GenerateEcdhKey(lib, a).0, GenerateEcdhKey(lib, b).1)
         == DeriveEcdhSharedKey(lib, GenerateEcdhKey(lib, b).0, GenerateEcdhKey(lib, a).1)
  {
  }

  /** pyo3's `TypeError` for an argument that must be a Python `str`. */
  function NotStrArgument(name: string): string
  {
    "argument '" + name + "': expected str"
  }

  /** `rsa_encrypt(public_key_pem, message)` called with two JSON values: each must be
      a string (the PEM is converted first), and a failed parse or encryption panics. */
  function RsaEncrypt(lib: Library, publicKeyPem: Value, message: Value): (r: Outcome<seq<byte>>)
    ensures !publicKeyPem.Str? ==> r == Fail(NotStrArgument("public_key_pem"))
    ensures publicKeyPem.Str? && !message.Str? ==> r == Fail(NotStrArgument("message"))
    ensures r.Returned? <==>
      publicKeyPem.Str? && message.Str? && lib.rsaEncrypt(publicKeyPem.s, message.s).Some?
    ensures r.Returned? ==> r.value == lib.rsaEncrypt(publicKeyPem.s, message.s).value
    ensures r.Raised? && publicKeyPem.Str? && message.Str? ==> r == Abort(RsaUnwrapPanic)
  {
    if !publicKeyPem.Str? then Fail(NotStrArgument("public_key_pem"))
    else if !message.Str? then Fail(NotStrArgument("message"))
    else match lib.rsaEncrypt(publicKeyPem.s, message.s)
      case Some(c) => Returned(c)
      case None => Abort(RsaUnwrapPanic)
  }

  /** `rsa_decrypt(private_key_pem, data)`: every failure is an `unwrap` panic. */
  function RsaDecrypt(lib: Library, privateKeyPem: string, data: seq<byte>): (r: Outcome<string>)
    ensures r.Returned? <==> lib.rsaDecrypt(privateKeyPem, data).Some?
    ensures r.Returned? ==> r.value == lib.rsaDecrypt(privateKeyPem, data).value
    ensures r.Raised? ==> r == Abort(RsaUnwrapPanic)
  {
    match lib.rsaDecrypt(privateKeyPem, data)
    case Some(m) => Returned(m)
    case None => Abort(RsaUnwrapPanic)
  }

  /** What the RSA wrappers add to the primitives: when decryption inverts encryption
      under a key pair, a string sent through `rsa_encrypt` comes back from
      `rsa_decrypt` unchanged. */
  lemma RsaRoundTrip(lib: Library, privatePem: string, publicPem: string, message: string)
    requires lib.rsaEncrypt(publicPem, message).Some?
    requires lib.rsaDecrypt(privatePem, lib.rsaEncrypt(publicPem, message).value) == Some(message)
    ensures RsaEncrypt(lib, Str(publicPem), Str(message)).Returned?
    ensures RsaDecrypt(lib, privatePem, RsaEncrypt(lib, Str(publicPem), Str(message)).value) == Returned(message)
  {
  }

  /** pyo3 converts both arguments before `rsa_encrypt` runs: a JSON value that is not a
      string is refused with a `TypeError` whatever the primitive would have done, so
      two libraries give the same outcome. */
  lemma RsaArgumentsCheckedFirst(lib: Library, other: Library, publicKeyPem: Value, message: Value)
    requires !publicKeyPem.Str? || !message.Str?
    ensures RsaEncrypt(lib, publicKeyPem, message).Raised?
    ensures RsaEncrypt(lib, publicKeyPem, message).exception.Error?
    ensures RsaEncrypt(lib, publicKeyPem, message) == RsaEncrypt(other, publicKeyPem, message)
  {
  }

  /** `kyber_err_to_pyerr`: a library error becomes a `ValueError` with its text. */
  function KyberResult<T>(r: Result<T, string>): (o: Outcome<T>)
    ensures o.Returned? <==> r.Ok?
    ensures r.Ok? ==> o.value == r.value
    ensures r.Err? ==> o == Fail(r.error)
  {
    match r
    case Ok(v) => Returned(v)
    case Err(e) => Fail(e)
  }

  function KyberKeygen(lib: Library, coins: Coins): Outcome<KemKeys>
  {
    KyberResult(lib.kyberKeypair(coins))
  }

  function KyberEncapsulate(lib: Library, publicKey: seq<byte>, coins: Coins): Outcome<Encapsulation>
  {
    KyberResult(lib.kyberEncapsulate(publicKey, coins))
  }

  function KyberDecapsulate(lib: Library, ciphertext: seq<byte>, secretKey: seq<byte>): Outcome<seq<byte>>
  {
    KyberResult(lib.kyberDecapsulate(ciphertext, secretKey))
  }

  /** Through the wrappers, a correct key-encapsulation mechanism round-trips: keys from
      `kyber_keygen` encapsulate, and decapsulating the ciphertext with the secret key
      gives the shared secret that encapsulation returned. */
  lemma KyberRoundTrip(lib: Library, keyCoins: Coins, encCoins: Coins)
    requires lib.kyberKeypair(keyCoins).Ok?
    requires lib.kyberEncapsulate(lib.kyberKeypair(keyCoins).value.publicKey, encCoins).Ok?
    requires
      var kp := lib.kyberKeypair(keyCoins).value;
      var en := lib.kyberEncapsulate(kp.publicKey, encCoins).value;
      lib.kyberDecapsulate(en.ciphertext, kp.secretKey) == Ok(en.sharedSecret)
    ensures KyberKeygen(lib, keyCoins).Returned?
    ensures KyberEncapsulate(lib, KyberKeygen(lib, keyCoins).value.publicKey, encCoins).Returned?
    ensures
      var kp := KyberKeygen(lib, keyCoins).value;
      var en := KyberEncapsulate(lib, kp.publicKey, encCoins).value;
      KyberDecapsulate(lib, en.ciphertext, kp.secretKey) == Returned(en.sharedSecret)
  {
  }

  /** Every Kyber wrapper raises exactly when the library reports an error, and then
      with an ordinary `ValueError` carrying the library's text, never a panic. */
  lemma KyberErrorsSurface(lib: Library, coins: Coins, publicKey: seq<byte>, ciphertext: seq<byte>, secretKey: seq<byte>)
    ensures KyberKeygen(lib, coins).Raised? <==> lib.kyberKeypair(coins).Err?
    ensures KyberKeygen(lib, coins).Raised? ==> KyberKeygen(lib, coins).exception == Error(lib.kyberKeypair(coins).error)
    ensures KyberEncapsulate(lib, publicKey, coins).Raised? <==> lib.kyberEncapsulate(publicKey, coins).Err?
    ensures KyberEncapsulate(lib, publicKey, coins).Raised? ==>
      KyberEncapsulate(lib, publicKey, coins).exception == Error(lib.kyberEncapsulate(publicKey, coins).error)
    ensures KyberDecapsulate(lib, ciphertext, secretKey).Raised? <==> lib.kyberDecapsulate(ciphertext, secretKey).Err?
    ensures KyberDecapsulate(lib, ciphertext, secretKey).Raised? ==>
      KyberDecapsulate(lib, ciphertext, secretKey).exception == Error(lib.kyberDecapsulate(ciphertext, secretKey).error)
  {
  }
}
