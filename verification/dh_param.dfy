/** The older Diffie-Hellman entry points of the extension's `lib.rs`: the caller
    supplies the modulus and generator as decimal text, and keys travel as decimal
    text too. */
module DhParam {
  import opened Decimal
  import opened ModArith
  import opened Python
  import opened Wrappers

  datatype KeyStrings = KeyStrings(privateKey: string, publicKey: string)

  /** num-bigint's assertion in `gen_biguint_below` for a zero bound. */
  const ZeroBoundPanic := "assertion failed: !bound.is_zero()"

  /** num-bigint's assertion in `modpow` for a zero modulus. */
  const ZeroModulusPanic := "attempt to calculate with zero modulus!"

  /** `parse_bytes(s, 10).ok_or_else(|| ValueError(message))`. */
  function ParseOr(s: string, message: string): (r: Outcome<nat>)
    ensures r == (if Parse(s).Some? then Returned(Parse(s).value) else Fail(message))
  {
    match Parse(s)
    case Some(v) => Returned(v)
    case None => Fail(message)
  }

  /** `generate_dh_key(p, g)` once the private key is drawn below `p`. `p` is read
      before `g`; a zero `p` makes the draw panic. */
  function GenerateDhKey(p: string, g: string, draw: nat): (r: Outcome<KeyStrings>)
    requires Parse(p).Some? && Parse(p).value > 0 ==> draw < Parse(p).value
    ensures Parse(p).None? ==> r == Fail("Invalid p")
    ensures Parse(p).Some? && Parse(g).None? ==> r == Fail("Invalid g")
    ensures Parse(p) == Some(0) && Parse(g).Some? ==> r.Raised? && r.exception.Panic?
    ensures r.Returned? <==> Parse(p).Some? && Parse(g).Some? && Parse(p).value > 0
    ensures r.Returned? ==>
      && r.value.privateKey == ToDecimal(draw)
      && r.value.publicKey == ToDecimal(ModPow(Parse(g).value, draw, Parse(p).value))
      && Parse(r.value.privateKey) == Some(draw)
      && draw < Parse(p).value
      && Parse(r.value.publicKey) == Some(ModPow(Parse(g).value, draw, Parse(p).value))
  {
    var pv :- ParseOr(p, "Invalid p");
    var gv :- ParseOr(g, "Invalid g");
    if pv == 0 then Abort(ZeroBoundPanic)
    else
      var publicKey := ModPow(gv, draw, pv);
      RoundTrip(draw);
      RoundTrip(publicKey);
      Returned(KeyStrings(ToDecimal(draw), ToDecimal(publicKey)))
  }

  /** `derive_dh_shared_key(private_key, server_public_key, p)`: validates `p`, then the
      private key, then the peer's key, and answers `peer^private mod p` in decimal. */
  function DeriveDhSharedKey(privateKey: string, serverPublicKey: string, p: string): (r: Outcome<string>)
    ensures Parse(p).None? ==> r == Fail("Invalid p")
    ensures Parse(p).Some? && Parse(privateKey).None? ==> r == Fail("Invalid private_key")
    ensures (Parse(p).Some? && Parse(privateKey).Some? && Parse(serverPublicKey).None?)
      ==> r == Fail("Invalid server_public_key")
    ensures (Parse(p) == Some(0) && Parse(privateKey).Some? && Parse(serverPublicKey).Some?)
      ==> r.Raised? && r.exception.Panic?
    ensures r.Returned? <==>
      Parse(p).Some? && Parse(privateKey).Some? && Parse(serverPublicKey).Some? && Parse(p).value > 0
    ensures r.Returned? ==>
      && r.value == ToDecimal(ModPow(Parse(serverPublicKey).value, Parse(privateKey).value, Parse(p).value))
      && Parse(r.value) == Some(ModPow(Parse(serverPublicKey).value, Parse(privateKey).value, Parse(p).value))
  {
    var pv :- ParseOr(p, "Invalid p");
    var x :- ParseOr(privateKey, "Invalid private_key");
    var y :- ParseOr(serverPublicKey, "Invalid server_public_key");
    if pv == 0 then Abort(ZeroModulusPanic)
    else
      var shared := ModPow(y, x, pv);
      RoundTrip(shared);
      Returned(ToDecimal(shared))
  }

  /** Generated keys feed derivation, and two key pairs over the same `p` and `g`
      agree: `derive(a, pub(b)) == derive(b, pub(a))`, both succeeding. */
  lemma ParamAgreement(p: string, g: string, a: nat, b: nat)
    requires Parse(p).Some? && Parse(g).Some? && Parse(p).value > 0
    requires a < Parse(p).value && b < Parse(p).value
    ensures
      var ka, kb := GenerateDhKey(p, g, a).value, GenerateDhKey(p, g, b).value;
      && DeriveDhSharedKey(ka.privateKey, kb.publicKey, p).Returned?
      && DeriveDhSharedKey(ka.privateKey, kb.publicKey, p) == DeriveDhSharedKey(kb.privateKey, ka.publicKey, p)
  {
    var pv, gv := Parse(p).value, Parse(g).value;
    var ka, kb := GenerateDhKey(p, g, a).value, GenerateDhKey(p, g, b).value;
    var sab := DeriveDhSharedKey(ka.privateKey, kb.publicKey, p);
    var sba := DeriveDhSharedKey(kb.privateKey, ka.publicKey, p);
    Agreement(gv, b, a, pv);
    assert Parse(sab.value) == Parse(sba.value);
    assert sab.value == ToDecimal(ModPow(ModPow(gv, b, pv), a, pv));
  }
}
