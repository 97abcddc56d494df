/** The two services composed: the Initiator's `transport` is the matching Responder
    handler, its response seen through `requests`. Under the agreement each primitive
    promises, both sides end with the same key. */
module Exchange {
  import opened Wrappers
  import opened Bytes
  import opened Envelope
  import opened Library
  import Hex
  import Dh
  import Ntru
  import Initiator
  import Responder
  import SwooshPy

  /** Both envelopes report success and carry `field` with the same value. */
  predicate Agree(r1: Response, r2: Response, field: string)
  {
    && IsSuccess(r1) && IsSuccess(r2)
    && field in r1.fields && field in r2.fields
    && r1.fields[field] == r2.fields[field]
  }

  function DhTransport(x2: Dh.Exponent, sha: Hash): string -> Reply
  {
    body => AsReply(Responder.ReceivePublicKey(body, x2, sha))
  }

  /** The Responder's reply to a Diffie-Hellman public key it can decode: status 200,
      and its own public key readable from the hex it answers. */
  lemma DhReply(body: string, x2: Dh.Exponent, sha: Hash)
    requires Hex.Decode(body).Some?
    ensures var r2 := Responder.ReceivePublicKey(body, x2, sha);
      var kp2 := Dh.GenerateDhKey(x2);
      && IsSuccess(r2) && "final_key" in r2.fields
      && r2.fields["final_key"] == Str(HexDigest(sha, Dh.DeriveDhSharedKey(kp2.privateKey, Hex.Decode(body).value)))
      && HexAnswer(AsReply(r2), "server_public_key")
      && AnswerBytes(AsReply(r2), "server_public_key") == kp2.publicKey
  {
  }

  /** Two successes carrying the same value under `field` agree on it. */
  lemma AgreeOn(r1: Response, r2: Response, field: string, v: Value)
    requires IsSuccess(r1) && field in r1.fields && r1.fields[field] == v
    requires IsSuccess(r2) && field in r2.fields && r2.fields[field] == v
    ensures Agree(r1, r2, field)
  {
  }

  /** The Initiator's Diffie-Hellman route against the Responder: a success whose
      `final_key` hashes the value derived from the Responder's public key. */
  lemma DhInitiator(x1: Dh.Exponent, x2: Dh.Exponent, sha: Hash)
    ensures IsSuccess(Initiator.DiffieHellmanRoute(x1, DhTransport(x2, sha), sha))
    ensures "final_key" in Initiator.DiffieHellmanRoute(x1, DhTransport(x2, sha), sha).fields
    ensures Initiator.DiffieHellmanRoute(x1, DhTransport(x2, sha), sha).fields["final_key"]
      == Str(HexDigest(sha, Dh.DeriveDhSharedKey(Dh.GenerateDhKey(x1).privateKey, Dh.GenerateDhKey(x2).publicKey)))
  {
    var kp1 := Dh.GenerateDhKey(x1);
    var body := Hex.Encode(kp1.publicKey);
    Hex.RoundTrip(kp1.publicKey);
    DhReply(body, x2, sha);
    assert DhTransport(x2, sha)(body) == AsReply(Responder.ReceivePublicKey(body, x2, sha));
  }

  /** The Responder's side of the same exchange: its `final_key` hashes the value the
      Initiator derives, by Diffie-Hellman agreement. */
  lemma DhResponder(x1: Dh.Exponent, x2: Dh.Exponent, sha: Hash)
    ensures IsSuccess(Responder.ReceivePublicKey(Hex.Encode(Dh.GenerateDhKey(x1).publicKey), x2, sha))
    ensures "final_key" in Responder.ReceivePublicKey(Hex.Encode(Dh.GenerateDhKey(x1).publicKey), x2, sha).fields
    ensures Responder.ReceivePublicKey(Hex.Encode(Dh.GenerateDhKey(x1).publicKey), x2, sha).fields["final_key"]
      == Str(HexDigest(sha, Dh.DeriveDhSharedKey(Dh.GenerateDhKey(x1).privateKey, Dh.GenerateDhKey(x2).publicKey)))
  {
    var kp1 := Dh.GenerateDhKey(x1);
    Hex.RoundTrip(kp1.publicKey);
    DhReply(Hex.Encode(kp1.publicKey), x2, sha);
    Dh.DhAgreement(x1, x2);
  }

  /** Diffie-Hellman end to end: the Initiator's `final_key` is the Responder's. */
  lemma DhExchange(x1: Dh.Exponent, x2: Dh.Exponent, sha: Hash)
    ensures Agree(Initiator.DiffieHellmanRoute(x1, DhTransport(x2, sha), sha),
      Responder.ReceivePublicKey(Hex.Encode(Dh.GenerateDhKey(x1).publicKey), x2, sha), "final_key")
  {
    DhInitiator(x1, x2, sha);
    DhResponder(x1, x2, sha);
    AgreeOn(Initiator.DiffieHellmanRoute(x1, DhTransport(x2, sha), sha),
      Responder.ReceivePublicKey(Hex.Encode(Dh.GenerateDhKey(x1).publicKey), x2, sha), "final_key",
      Str(HexDigest(sha, Dh.DeriveDhSharedKey(Dh.GenerateDhKey(x1).privateKey, Dh.GenerateDhKey(x2).publicKey))));
  }

  function EcdhTransport(secret2: Key32, lib: Library): string -> Reply
  {
    body => AsReply(Responder.ReceivePublicKeyEllCurve(body, secret2, lib))
  }

  /** The Responder's reply to an X25519 public key of 32 bytes: status 200, and its
      own public key readable from the hex it answers. */
  lemma EcdhReply(body: string, secret2: Key32, lib: Library)
    requires Hex.Decode(body).Some? && |Hex.Decode(body).value| == 32
    ensures var r2 := Responder.ReceivePublicKeyEllCurve(body, secret2, lib);
      && IsSuccess(r2) && "final_key" in r2.fields
      && r2.fields["final_key"] == Str(HexDigest(lib.sha, lib.x25519(secret2, Hex.Decode(body).value)))
      && HexAnswer(AsReply(r2), "server_public_key")
      && AnswerBytes(AsReply(r2), "server_public_key") == lib.x25519Base(secret2)
  {
    var r2 := Responder.ReceivePublicKeyEllCurve(body, secret2, lib);
    var finalKey := HexDigest(lib.sha, lib.x25519(secret2, Hex.Decode(body).value));
    assert r2 == Json(200, Responder.KeyAgreementFields(finalKey, lib.x25519Base(secret2), secret2));
    Responder.KeyAgreementFieldsDecode(finalKey, lib.x25519Base(secret2), secret2);
  }

  /** X25519 end to end: with the curve's agreement for the two secrets, the
      Initiator's `final_key` is the Responder's. */
  lemma EcdhExchange(secret1: Key32, secret2: Key32, lib: Library)
    requires lib.x25519(secret1, lib.x25519Base(secret2)) == lib.x25519(secret2, lib.x25519Base(secret1))
    ensures var r1 := Initiator.EcdhRoute(secret1, EcdhTransport(secret2, lib), lib);
      var r2 := Responder.ReceivePublicKeyEllCurve(Hex.Encode(lib.x25519Base(secret1)), secret2, lib);
      Agree(r1, r2, "final_key")
  {
    var public1 := lib.x25519Base(secret1);
    var public2 := lib.x25519Base(secret2);
    var body := Hex.Encode(public1);
    Hex.RoundTrip(public1);
    Hex.RoundTrip(public2);
    var reply := EcdhTransport(secret2, lib)(body);
    assert reply == AsReply(Responder.ReceivePublicKeyEllCurve(body, secret2, lib));
    EcdhReply(body, secret2, lib);
  }

  function RsaTransport(lib: Library): Fields -> Reply
  {
    request => AsReply(Responder.Encrypt(Some(request), lib))
  }

  /** RSA end to end: when decryption inverts encryption for the key pair, the route
      reports the very message it sent (the default one when none is given). */
  lemma RsaExchange(keys: RsaKeys, request: Fields, lib: Library)
    requires Initiator.MessageOf(request).Str?
    requires var m := Initiator.MessageOf(request).s;
      && lib.rsaEncrypt(keys.publicPem, m).Some?
      && lib.rsaDecrypt(keys.privatePem, lib.rsaEncrypt(keys.publicPem, m).value) == Some(m)
    ensures var r := Initiator.RsaRoute(keys, Some(request), RsaTransport(lib), lib);
      && IsSuccess(r) && "decrypted_message" in r.fields
      && r.fields["decrypted_message"] == Initiator.MessageOf(request)
  {
    var m := Initiator.MessageOf(request);
    var sent := Initiator.EncryptRequest(m, keys.publicPem);
    var c := lib.rsaEncrypt(keys.publicPem, m.s).value;
    Hex.RoundTrip(c);
    var reply := RsaTransport(lib)(sent);
    assert reply == AsReply(Responder.Encrypt(Some(sent), lib));
    assert AnswerBytes(reply, "encrypted_message") == c;
  }

  /** A message that is not a JSON string makes the Responder's `rsa_encrypt` call
      raise `TypeError`; its failure envelope has no `encrypted_message`, so the
      Initiator answers 500. */
  lemma RsaNonStringMessage(keys: RsaKeys, request: Fields, lib: Library)
    requires !Initiator.MessageOf(request).Str?
    ensures Initiator.RsaRoute(keys, Some(request), RsaTransport(lib), lib)
      == Json(500, FailureFields("Encryption failed at Server 2"))
  {
    var sent := Initiator.EncryptRequest(Initiator.MessageOf(request), keys.publicPem);
    var reply := RsaTransport(lib)(sent);
    assert reply == AsReply(Responder.Encrypt(Some(sent), lib));
  }

  function KyberTransport(coins: Coins, lib: Library): string -> Reply
  {
    body => AsReply(Responder.KyberEncapsulateHandler(body, coins, lib))
  }

  /** Kyber end to end: under KEM correctness for the pair, the Initiator's
      `shared_secret` is the Responder's. */
  lemma KyberExchange(keyCoins: Coins, encCoins: Coins, lib: Library)
    requires lib.kyberKeypair(keyCoins).Ok?
    requires var kp := lib.kyberKeypair(keyCoins).value;
      && lib.kyberEncapsulate(kp.publicKey, encCoins).Ok?
      && var en := lib.kyberEncapsulate(kp.publicKey, encCoins).value;
         lib.kyberDecapsulate(en.ciphertext, kp.secretKey) == Ok(en.sharedSecret)
    ensures var kp := lib.kyberKeypair(keyCoins).value;
      var r1 := Initiator.KyberRoute(keyCoins, KyberTransport(encCoins, lib), lib);
      var r2 := Responder.KyberEncapsulateHandler(Hex.Encode(kp.publicKey), encCoins, lib);
      Agree(r1, r2, "shared_secret")
  {
    var kp := lib.kyberKeypair(keyCoins).value;
    var body := Hex.Encode(kp.publicKey);
    assert KyberTransport(encCoins, lib)(body) == AsReply(Responder.KyberEncapsulateHandler(body, encCoins, lib));
    KyberReply(kp.publicKey, encCoins, lib);
  }

  /** The Kyber Responder's reply to a key it encapsulates against: a success whose
      ciphertext reads back from its hex. */
  lemma KyberReply(publicKey: seq<byte>, encCoins: Coins, lib: Library)
    requires lib.kyberEncapsulate(publicKey, encCoins).Ok?
    ensures var en := lib.kyberEncapsulate(publicKey, encCoins).value;
      var r := Responder.KyberEncapsulateHandler(Hex.Encode(publicKey), encCoins, lib);
      && r == Json(200, Responder.EncapsulationFields(en.ciphertext, en.sharedSecret))
      && HexAnswer(AsReply(r), "ciphertext")
      && AnswerBytes(AsReply(r), "ciphertext") == en.ciphertext
  {
    var en := lib.kyberEncapsulate(publicKey, encCoins).value;
    Hex.RoundTrip(publicKey);
    Responder.EncapsulationFieldsDecode(en.ciphertext, en.sharedSecret);
  }

  /** The Kyber Responder's reply to a key whose encapsulation fails lacks a
      ciphertext. */
  lemma KyberFailedReply(publicKey: seq<byte>, encCoins: Coins, lib: Library)
    requires lib.kyberEncapsulate(publicKey, encCoins).Err?
    ensures Lacks(AsReply(Responder.KyberEncapsulateHandler(Hex.Encode(publicKey), encCoins, lib)), "ciphertext")
  {
    Hex.RoundTrip(publicKey);
  }

  /** A failed Kyber encapsulation is reported as failure with status 200. */
  lemma KyberEncapsulationFails(keyCoins: Coins, encCoins: Coins, lib: Library)
    requires lib.kyberKeypair(keyCoins).Ok?
    requires lib.kyberEncapsulate(lib.kyberKeypair(keyCoins).value.publicKey, encCoins).Err?
    ensures Initiator.KyberRoute(keyCoins, KyberTransport(encCoins, lib), lib)
      == Json(200, FailureFields("Kyber encapsulation failed at Server 2"))
  {
    var publicKey := lib.kyberKeypair(keyCoins).value.publicKey;
    var body := Hex.Encode(publicKey);
    assert KyberTransport(encCoins, lib)(body) == AsReply(Responder.KyberEncapsulateHandler(body, encCoins, lib));
    KyberFailedReply(publicKey, encCoins, lib);
  }

  function NtruTransport(entropy: Ntru.Entropy, lib: Library): string -> Reply
  {
    body => AsReply(Responder.NtruEncapsulateHandler(body, entropy, lib))
  }

  /** The NTRU mechanism is correct for the pair drawn from these seeds. */
  predicate NtruCorrect(keyEntropy: Ntru.Entropy, encEntropy: Ntru.Entropy, lib: Library)
  {
    && lib.ntru.keypair(keyEntropy).Ok?
    && var kp := lib.ntru.keypair(keyEntropy).value;
       && lib.ntru.enc(kp.publicKey, encEntropy).Ok?
       && var en := lib.ntru.enc(kp.publicKey, encEntropy).value;
          lib.ntru.dec(en.ciphertext, kp.secretKey) == Ok(en.sharedSecret)
  }

  /** NTRU end to end with the corrected route: the Initiator's `shared_secret` is
      the Responder's, and its `final_key` is that secret's SHA-256. */
  lemma NtruExchange(keyEntropy: Ntru.Entropy, encEntropy: Ntru.Entropy, lib: Library)
    requires NtruCorrect(keyEntropy, encEntropy, lib)
    ensures var kp := lib.ntru.keypair(keyEntropy).value;
      var en := lib.ntru.enc(kp.publicKey, encEntropy).value;
      var r1 := Initiator.NtruRoute(keyEntropy, NtruTransport(encEntropy, lib), lib);
      var r2 := Responder.NtruEncapsulateHandler(Hex.Encode(kp.publicKey), encEntropy, lib);
      && Agree(r1, r2, "shared_secret")
      && "final_key" in r1.fields
      && r1.fields["final_key"] == Str(HexDigest(lib.sha, en.sharedSecret))
  {
    var kp := lib.ntru.keypair(keyEntropy).value;
    var body := Hex.Encode(kp.publicKey);
    assert NtruTransport(encEntropy, lib)(body) == AsReply(Responder.NtruEncapsulateHandler(body, encEntropy, lib));
    NtruReply(kp.publicKey, encEntropy, lib);
  }

  /** The NTRU Responder's reply to a key it encapsulates against: a success whose
      ciphertext reads back from its hex. */
  lemma NtruReply(publicKey: Ntru.PublicKey, encEntropy: Ntru.Entropy, lib: Library)
    requires lib.ntru.enc(publicKey, encEntropy).Ok?
    ensures var en := lib.ntru.enc(publicKey, encEntropy).value;
      var r := Responder.NtruEncapsulateHandler(Hex.Encode(publicKey), encEntropy, lib);
      && r == Json(200, Responder.EncapsulationFields(en.ciphertext, en.sharedSecret))
      && HexAnswer(AsReply(r), "ciphertext")
      && AnswerBytes(AsReply(r), "ciphertext") == en.ciphertext
  {
    var en := lib.ntru.enc(publicKey, encEntropy).value;
    Hex.RoundTrip(publicKey);
    Responder.EncapsulationFieldsDecode(en.ciphertext, en.sharedSecret);
  }

  /** The route as written fails exactly where the corrected one succeeds: with a
      correct mechanism and a Responder that encapsulates, it answers Flask's 500. */
  lemma NtruAsWrittenFails(keyEntropy: Ntru.Entropy, encEntropy: Ntru.Entropy, lib: Library)
    requires NtruCorrect(keyEntropy, encEntropy, lib)
    ensures Initiator.NtruRouteAsWritten(keyEntropy, NtruTransport(encEntropy, lib), lib) == InternalServerError
    ensures IsSuccess(Initiator.NtruRoute(keyEntropy, NtruTransport(encEntropy, lib), lib))
  {
    NtruExchange(keyEntropy, encEntropy, lib);
    var kp := lib.ntru.keypair(keyEntropy).value;
    var body := Hex.Encode(kp.publicKey);
    Hex.RoundTrip(kp.publicKey);
    assert NtruTransport(encEntropy, lib)(body) == AsReply(Responder.NtruEncapsulateHandler(body, encEntropy, lib));
  }

  /** The NTRU Responder's reply to a key whose encapsulation fails lacks a
      ciphertext. */
  lemma NtruFailedReply(publicKey: Ntru.PublicKey, encEntropy: Ntru.Entropy, lib: Library)
    requires lib.ntru.enc(publicKey, encEntropy).Err?
    ensures Lacks(AsReply(Responder.NtruEncapsulateHandler(Hex.Encode(publicKey), encEntropy, lib)), "ciphertext")
  {
    Hex.RoundTrip(publicKey);
  }

  /** A failed NTRU encapsulation is reported as failure with status 500. */
  lemma NtruEncapsulationFails(keyEntropy: Ntru.Entropy, encEntropy: Ntru.Entropy, lib: Library)
    requires lib.ntru.keypair(keyEntropy).Ok?
    requires lib.ntru.enc(lib.ntru.keypair(keyEntropy).value.publicKey, encEntropy).Err?
    ensures Initiator.NtruRoute(keyEntropy, NtruTransport(encEntropy, lib), lib)
      == Json(500, FailureFields("NTRU encapsulation failed at Server 2"))
  {
    var publicKey := lib.ntru.keypair(keyEntropy).value.publicKey;
    var body := Hex.Encode(publicKey);
    assert NtruTransport(encEntropy, lib)(body) == AsReply(Responder.NtruEncapsulateHandler(body, encEntropy, lib));
    NtruFailedReply(publicKey, encEntropy, lib);
  }

  /** The Responder has no `swoosh_receive` handler, so Flask answers the Swoosh route's
      post with its HTML 404 page and the route reports that status. */
  lemma SwooshWithoutResponder(dr: SwooshPy.Draws, sha: Hash)
    requires SwooshPy.DrawsFit(SwooshPy.SwooshGenerateParameters(), dr)
    ensures SwooshPy.SwooshNikeRoute(dr, _ => Reply(404, None), sha)
      == Json(200, FailureFields("Server 2 responded with status code " + StatusText(404)))
  {
  }
}
