/** Diffie-Hellman over the fixed 2048-bit MODP group of section 3 of RFC 3526
    (generator 2), with keys carried as minimal big-endian bytes: the `dh.rs` module
    of the extension the services call. */
module Dh {
  import opened Bytes
  import opened ModArith

  /** The RFC 3526 2048-bit prime, digit for digit as `DH_PRIME` spells it. */
  const DhPrime: nat := 0xFFFFFFFFFFFFFFFFC90FDAA22168C234C4C6628B80DC1CD129024E088A67CC74020BBEA63B139B22514A08798E3404DDEF9519B3CD3A431B302B0A6DF25F14374FE1356D6D51C245E485B576625E7EC6F44C42E9A637ED6B0BFF5CB6F406B7EDEE386BFB5A899FA5AE9F24117C4B1FE649286651ECE45B3DC2007CB8A163BF0598DA48361C55D39A69163FA8FD24CF5F83655D23DCA3AD961C62F356208552BB9ED529077096966D670C354E4ABC9804F1746C08CA18217C32905E462E36CE3BE39E772C180E86039B2783A2EC07A28FB5C55DF06F4C52C9DE2BCBF6955817183995497CEA956AE515D2261898FA051015728E5A8AACAA68FFFFFFFFFFFFFFFF

  const DhGenerator: nat := 2

  /** A private exponent as `gen_biguint_range(2, p)` draws it. The draw itself is the
      random input of key generation. */
  type Exponent = x: nat | 2 <= x < DhPrime witness 2

  datatype KeyPair = KeyPair(privateKey: seq<byte>, publicKey: seq<byte>)

  /** `generate_dh_key()` once the random exponent is drawn: both halves as
      `to_bytes_be`, the public half being `2^x mod p` in the fixed group. */
  function GenerateDhKey(x: Exponent): (kp: KeyPair)
    ensures FromBytesBe(kp.privateKey) == x
    ensures 2 <= FromBytesBe(kp.privateKey) < DhPrime
    ensures FromBytesBe(kp.publicKey) == ModPow(DhGenerator, x, DhPrime)
    ensures FromBytesBe(kp.publicKey) < DhPrime
    ensures IsMinimalBe(kp.privateKey) && IsMinimalBe(kp.publicKey)
  {
    KeyPair(ToBytesBe(x), ToBytesBe(ModPow(DhGenerator, x, DhPrime)))
  }

  /** `derive_dh_shared_key(private, other)`: `other^private mod p` in the fixed group.
      Any byte strings are accepted; the peer value is not checked against `p`, and the
      result is below `p` whatever it is. */
  function DeriveDhSharedKey(privateKey: seq<byte>, otherPublicKey: seq<byte>): (shared: seq<byte>)
    ensures FromBytesBe(shared) == ModPow(FromBytesBe(otherPublicKey), FromBytesBe(privateKey), DhPrime)
    ensures FromBytesBe(shared) < DhPrime
    ensures IsMinimalBe(shared)
  {
    ToBytesBe(ModPow(FromBytesBe(otherPublicKey), FromBytesBe(privateKey), DhPrime))
  }

  /** The shared bytes of two key pairs are `(g^b)^a mod p` for their exponents. */
  lemma SharedValue(a: Exponent, b: Exponent)
    ensures FromBytesBe(DeriveDhSharedKey(GenerateDhKey(a).privateKey, GenerateDhKey(b).publicKey))
         == Pow(Pow(DhGenerator, b), a) % DhPrime
  {
    ModPowCompose(DhGenerator, b, a, DhPrime);
    PowMul(DhGenerator, b, a);
  }

  /** Agreement: each party, deriving from its own private key and the other's public
      key, obtains the same bytes. */
  lemma DhAgreement(a: Exponent, b: Exponent)
    ensures DeriveDhSharedKey(GenerateDhKey(a).privateKey, GenerateDhKey(b).publicKey)
         == DeriveDhSharedKey(GenerateDhKey(b).privateKey, GenerateDhKey(a).publicKey)
  {
    var sab := DeriveDhSharedKey(GenerateDhKey(a).privateKey, GenerateDhKey(b).publicKey);
    var sba := DeriveDhSharedKey(GenerateDhKey(b).privateKey, GenerateDhKey(a).publicKey);
    SharedValue(a, b);
    SharedValue(b, a);
    PowMul(DhGenerator, a, b);
    PowMul(DhGenerator, b, a);
    assert a * b == b * a;
    BeMinimalRoundTrip(sab);
    BeMinimalRoundTrip(sba);
  }
}
