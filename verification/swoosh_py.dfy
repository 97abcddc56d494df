/** The numpy "Swoosh" exchange of the Initiator's `routes/app.py`: fixed parameters,
    ternary secret and error vectors, public key `(A s + e) mod q`, int64 byte
    serialisation, a scalar shared value reduced modulo 2^14, and the route that runs
    one exchange. The random draws of `np.random.randint` are inputs. */
module SwooshPy {
  import opened Wrappers
  import opened Python
  import opened ModArith
  import opened Bytes
  import opened MachineInt
  import opened Envelope
  import Hex

  datatype Parameters = Parameters(q: int, d: int, n: int)

  /** The modulus `swoosh_derive_shared_key` hard-codes, whatever the parameters. */
  const SharedModulus: nat := 0x4000

  /** `swoosh_generate_parameters()`: the same constants on every call. */
  function SwooshGenerateParameters(): (p: Parameters)
    ensures p.q == Pow(2, 14) && p.d == 256 && p.n == 32
  {
    Parameters(0x4000, 256, 32)
  }

  /** The values `np.random.randint` returns for one key generation: the `n x n`
      matrix with entries in `[0, q)`, then `s` and `e` with entries in `{-1, 0, 1}`. */
  datatype Draws = Draws(a: seq<seq<int>>, s: seq<int>, e: seq<int>)

  predicate IsTernary(x: int)
  {
    -1 <= x <= 1
  }

  predicate DrawsFit(p: Parameters, dr: Draws)
  {
    && p.n >= 0
    && |dr.a| == p.n && |dr.s| == p.n && |dr.e| == p.n
    && (forall i :: 0 <= i < p.n ==> |dr.a[i]| == p.n)
    && (forall i, j :: 0 <= i < p.n && 0 <= j < |dr.a[i]| ==> 0 <= dr.a[i][j] < p.q)
    && (forall i :: 0 <= i < p.n ==> IsTernary(dr.s[i]) && IsTernary(dr.e[i]))
  }

  /** The exact dot product of two vectors of the same length. */
  function Dot(x: seq<int>, y: seq<int>): int
    requires |x| == |y|
  {
    if |x| == 0 then 0 else x[0] * y[0] + Dot(x[1..], y[1..])
  }

  /** numpy's bound errors for `randint(0, q, ..)`: `q - 1` must fit `int64`, and the
      range must not be empty (the message names `0`, the lower bound). */
  const HighOutOfBoundsMessage := "high is out of bounds for int64"
  const NoRangeMessage := "high <= 0"
  const NegativeDimensionMessage := "negative dimensions are not allowed"

  datatype Keys = Keys(s: seq<int>, publicKey: seq<int>)

  /** Python's `x % q` for a positive `q`: the representative of `x` in `[0, q)`. */
  function FloorMod(x: int, q: int): (r: int)
    requires q > 0
    ensures 0 <= r < q
    ensures (x - r) % q == 0
  {
    ModUnique(x - x % q, q, x / q, 0);
    x % q
  }

  /** `swoosh_generate_keys(parameters)`: `public_key = (np.dot(A, s) + e) % q`,
      reduced with Python's floor `%`. `d` is read and ignored. numpy answers a request
      for no values with an empty array before it looks at the bounds, so `N = 0` never
      raises; otherwise the bounds of `A`'s draw are checked first (`q - 1` must fit
      `int64` and be at least `0`), and a negative `N` fails only after them, when the
      array is allocated. */
  function SwooshGenerateKeys(p: Parameters, dr: Draws): (r: Outcome<Keys>)
    requires p.n == 0 || (p.n > 0 && 0 < p.q <= TwoTo63) ==> DrawsFit(p, dr)
    ensures r.Raised? <==> p.n < 0 || (p.n > 0 && (p.q <= 0 || p.q > TwoTo63))
    ensures r.Raised? ==> r.exception.Error?
    ensures p.n != 0 && p.q > TwoTo63 ==> r == Fail(HighOutOfBoundsMessage)
    ensures p.n != 0 && p.q <= 0 ==> r == Fail(NoRangeMessage)
    ensures p.n < 0 && 0 < p.q <= TwoTo63 ==> r == Fail(NegativeDimensionMessage)
    ensures r.Returned? ==>
      && r.value.s == dr.s
      && |r.value.publicKey| == p.n
      && forall i :: 0 <= i < p.n ==>
           && 0 <= r.value.publicKey[i] < p.q
           && (Dot(dr.a[i], dr.s) + dr.e[i] - r.value.publicKey[i]) % p.q == 0
  {
    if p.n == 0 then Returned(Keys(dr.s, []))
    else if p.q > TwoTo63 then Fail(HighOutOfBoundsMessage)
    else if p.q <= 0 then Fail(NoRangeMessage)
    else if p.n < 0 then Fail(NegativeDimensionMessage)
    else
      var publicKey := seq(p.n, i requires 0 <= i < p.n => FloorMod(Dot(dr.a[i], dr.s) + dr.e[i], p.q));
      Returned(Keys(dr.s, publicKey))
  }

  /** With the parameters the route uses, key generation never raises and gives `N`
      entries in `[0, q)`; and the modulus `swoosh_derive_shared_key` hard-codes is the
      same `q` the keys were reduced by. */
  lemma FixedParametersSucceed(dr: Draws)
    requires DrawsFit(SwooshGenerateParameters(), dr)
    ensures SwooshGenerateKeys(SwooshGenerateParameters(), dr).Returned?
    ensures |SwooshGenerateKeys(SwooshGenerateParameters(), dr).value.publicKey| == 32
    ensures forall i :: 0 <= i < 32 ==> 0 <= SwooshGenerateKeys(SwooshGenerateParameters(), dr).value.publicKey[i] < SharedModulus
    ensures SwooshGenerateParameters().q == SharedModulus
  {
  }

  /** A row with entries in `[0, q)` against a ternary vector gives a dot product of
      magnitude at most `|row| * (q - 1)`. */
  lemma {:induction false} DotBound(x: seq<int>, t: seq<int>, q: int)
    requires |x| == |t| && q > 0
    requires forall j :: 0 <= j < |x| ==> 0 <= x[j] < q
    requires forall j :: 0 <= j < |t| ==> IsTernary(t[j])
    ensures -(|x| * (q - 1)) <= Dot(x, t) <= |x| * (q - 1)
  {
    if |x| > 0 {
      DotBound(x[1..], t[1..], q);
      assert -(q - 1) <= x[0] * t[0] <= q - 1;
      assert |x| * (q - 1) == (q - 1) + (|x| - 1) * (q - 1);
    }
  }

  /** With the fixed parameters every intermediate of `np.dot(A, s) + e` stays well
      inside `int64`, so computing over unbounded integers is exact. */
  lemma FixedParametersNoOverflow(dr: Draws)
    requires DrawsFit(SwooshGenerateParameters(), dr)
    ensures forall i :: 0 <= i < 32 ==> IsInt64(Dot(dr.a[i], dr.s) + dr.e[i])
  {
    forall i | 0 <= i < 32
      ensures IsInt64(Dot(dr.a[i], dr.s) + dr.e[i])
    {
      DotBound(dr.a[i], dr.s, 0x4000);
    }
  }

  predicate AllInt64(v: seq<int>)
  {
    forall i :: 0 <= i < |v| ==> IsInt64(v[i])
  }

  /** `np.ndarray.tobytes()` of an `int64` vector: eight little-endian bytes each. */
  function Serialize(v: seq<int>): (bs: seq<byte>)
    requires AllInt64(v)
    ensures |bs| == 8 * |v|
  {
    if |v| == 0 then [] else Int64ToLe(v[0]) + Serialize(v[1..])
  }

  /** Reads a buffer whose length is a multiple of eight as `int64` values. */
  function Chunks(bs: seq<byte>): (v: seq<int>)
    requires |bs| % 8 == 0
    ensures |v| == |bs| / 8
    ensures AllInt64(v)
  {
    if |bs| == 0 then [] else [LeToInt64(bs[..8])] + Chunks(bs[8..])
  }

  const BufferSizeMessage := "buffer size must be a multiple of element size"

  /** `np.frombuffer(bs, dtype=int)`. */
  function Deserialize(bs: seq<byte>): (r: Outcome<seq<int>>)
    ensures r.Returned? <==> |bs| % 8 == 0
    ensures r.Raised? ==> r.exception.Error?
    ensures r.Returned? ==> |r.value| == |bs| / 8 && AllInt64(r.value)
  {
    if |bs| % 8 != 0 then Fail(BufferSizeMessage) else Returned(Chunks(bs))
  }

  /** Deserialising a serialised vector gives the vector back. */
  lemma {:induction false} SerializeRoundTrip(v: seq<int>)
    requires AllInt64(v)
    ensures Deserialize(Serialize(v)) == Returned(v)
  {
    if |v| > 0 {
      var bs := Serialize(v);
      assert bs[..8] == Int64ToLe(v[0]);
      assert bs[8..] == Serialize(v[1..]);
      Int64RoundTrip(v[0]);
      SerializeRoundTrip(v[1..]);
      assert Chunks(bs[8..]) == v[1..];
      assert Chunks(bs) == [v[0]] + v[1..];
      assert [v[0]] + v[1..] == v;
    }
  }

  const ShapesMessage := "shapes not aligned"

  /** Reducing an int64 that wrapped gives the same residue modulo 2^14, because 2^14
      divides 2^64. */
  lemma WrapKeepsResidue(x: int)
    ensures WrapI64(x) % SharedModulus == x % SharedModulus
  {
    var w := WrapI64(x);
    var k := (x - w) / 0x1_0000_0000_0000_0000;
    ModUnique(x - w, 0x1_0000_0000_0000_0000, k, 0);
    ModUnique(x, SharedModulus, k * 0x4_0000_0000_0000 + w / SharedModulus, w % SharedModulus);
  }

  /** `swoosh_derive_shared_key(private_key, public_key)`: `np.dot` (an int64 sum that
      wraps silently) reduced modulo the hard-coded 2^14, written as one `int64`. The
      shapes must agree. */
  function SwooshDeriveSharedKey(privateKey: seq<int>, publicKey: seq<int>): (r: Outcome<seq<byte>>)
    requires AllInt64(privateKey) && AllInt64(publicKey)
    ensures r.Returned? <==> |privateKey| == |publicKey|
    ensures r.Raised? ==> r.exception.Error?
    ensures r.Returned? ==>
      && |r.value| == 8
      && 0 <= LeToInt64(r.value) < SharedModulus
      && (Dot(privateKey, publicKey) - LeToInt64(r.value)) % SharedModulus == 0
  {
    if |privateKey| != |publicKey| then Fail(ShapesMessage)
    else
      var dot := Dot(privateKey, publicKey);
      var shared := WrapI64(dot) % SharedModulus;
      WrapKeepsResidue(dot);
      ModUnique(dot, SharedModulus, dot / SharedModulus, shared);
      ModUnique(dot - shared, SharedModulus, dot / SharedModulus, 0);
      Int64RoundTrip(shared);
      Returned(Int64ToLe(shared))
  }

  /** The shared bytes depend on the exact dot product only through its residue. */
  lemma SharedBytes(privateKey: seq<int>, publicKey: seq<int>)
    requires AllInt64(privateKey) && AllInt64(publicKey) && |privateKey| == |publicKey|
    ensures SwooshDeriveSharedKey(privateKey, publicKey) == Returned(Int64ToLe(Dot(privateKey, publicKey) % SharedModulus))
  {
    WrapKeepsResidue(Dot(privateKey, publicKey));
  }

  /** The public key the route generates and sends. */
  function SentKey(dr: Draws): (bs: seq<byte>)
    requires DrawsFit(SwooshGenerateParameters(), dr)
    ensures |bs| == 8 * 32
  {
    var publicKey := SwooshGenerateKeys(SwooshGenerateParameters(), dr).value.publicKey;
    Serialize(publicKey)
  }

  /** A `server_public_key` value the route can use: a hex string of 32 int64 values. */
  predicate PeerValueUsable(v: Value)
  {
    v.Str? && Hex.Decode(v.s).Some? && |Hex.Decode(v.s).value| == 8 * 32
  }

  /** The route succeeds exactly when the peer answered 200 with a JSON body whose
      `server_public_key` is a hex string of 32 int64 values. */
  predicate PeerKeyUsable(reply: Reply)
  {
    Answered(reply, "server_public_key") && PeerValueUsable(AnswerValue(reply, "server_public_key"))
  }

  /** The success envelope of `swoosh_nike_route`. */
  function SwooshFields(keys: Keys, sent: seq<byte>, peerKey: Value, shared: seq<byte>, sha: Hash): (f: Fields)
    requires AllInt64(keys.s)
    ensures "success" in f && f["success"] == Bool(true)
    ensures "server2_public_key" in f && f["server2_public_key"] == peerKey
    ensures "final_key" in f && f["final_key"] == Str(HexDigest(sha, shared))
  {
    map[
      "success" := Bool(true),
      "server1_private_key" := Str(Hex.Encode(Serialize(keys.s))),
      "server1_public_key" := Str(Hex.Encode(sent)),
      "server2_public_key" := peerKey,
      "final_key" := Str(HexDigest(sha, shared))]
  }

  /** `deserialize_vector(bytes.fromhex(server2_public_key))`: the peer's vector,
      or an exception when the value is not a hex string of whole 8-byte words. */
  function PeerVector(peerKey: Value): (r: Outcome<seq<int>>)
    ensures r.Returned? <==> peerKey.Str? && Hex.Decode(peerKey.s).Some? && |Hex.Decode(peerKey.s).value| % 8 == 0
    ensures r.Raised? ==> r.exception.Error?
    ensures r.Returned? ==>
      && r.value == Chunks(Hex.Decode(peerKey.s).value)
      && |r.value| == |Hex.Decode(peerKey.s).value| / 8
      && (|r.value| == 32 <==> |Hex.Decode(peerKey.s).value| == 8 * 32)
      && AllInt64(r.value)
  {
    match FromHexValue(peerKey)
    case Raised(e) => Raised(e)
    case Returned(peerBytes) => Deserialize(peerBytes)
  }

  /** The eight bytes of the shared value agreed with a usable peer key: the dot
      product of the private vector with the peer's, reduced modulo 2^14. */
  function SharedWith(privateKey: seq<int>, peerKey: Value): (bs: seq<byte>)
    requires |privateKey| == 32 && AllInt64(privateKey) && PeerValueUsable(peerKey)
    ensures |bs| == 8
  {
    Int64ToLe(Dot(privateKey, Chunks(Hex.Decode(peerKey.s).value)) % SharedModulus)
  }

  /** What the route does with the peer's `server_public_key`: decode, deserialise,
      derive and hash; any step that fails raises. */
  function SwooshFinish(keys: Keys, sent: seq<byte>, peerKey: Value, sha: Hash): (r: Outcome<Response>)
    requires |keys.s| == 32 && AllInt64(keys.s)
    ensures PeerValueUsable(peerKey) ==>
      r == Returned(Json(200, SwooshFields(keys, sent, peerKey, SharedWith(keys.s, peerKey), sha)))
    ensures !PeerValueUsable(peerKey) ==> r.Raised? && r.exception.Error?
  {
    match PeerVector(peerKey)
    case Raised(e) => Raised(e)
    case Returned(peer) =>
      match SwooshDeriveSharedKey(keys.s, peer)
      case Raised(e) => Raised(e)
      case Returned(shared) =>
        SharedBytes(keys.s, peer);
        Returned(Json(200, SwooshFields(keys, sent, peerKey, shared, sha)))
  }

  /** The part of `swoosh_nike_route` inside its `try`, once the keys are generated:
      the three reported outcomes, the success on a usable peer key, and an exception
      for every other reply. */
  function SwooshExchange(keys: Keys, sent: seq<byte>, reply: Reply, sha: Hash): (r: Outcome<Response>)
    requires |keys.s| == 32 && AllInt64(keys.s)
    ensures reply.Unreachable? ==> r == Fail(reply.message)
    ensures reply.Reply? && reply.status != 200 ==>
      r == Returned(Json(200, FailureFields("Server 2 responded with status code " + StatusText(reply.status))))
    ensures Lacks(reply, "server_public_key") ==>
      r == Returned(Json(200, FailureFields("Server public key not found in response")))
    ensures Answered(reply, "server_public_key") ==>
      r == SwooshFinish(keys, sent, AnswerValue(reply, "server_public_key"), sha)
    ensures reply.Reply? && reply.status == 200 && reply.body.None? ==> r.Raised? && r.exception.Error?
  {
    if reply.Unreachable? then Fail(reply.message)
    else if reply.status != 200 then
      Returned(Json(200, FailureFields("Server 2 responded with status code " + StatusText(reply.status))))
    else
      match JsonBody(reply)
      case Raised(e) => Raised(e)
      case Returned(data) =>
        if "server_public_key" !in data then
          Returned(Json(200, FailureFields("Server public key not found in response")))
        else
          SwooshFinish(keys, sent, data["server_public_key"], sha)
  }

  /** `swoosh_nike_route()`. Every outcome is a JSON envelope with status 200: a
      non-200 peer is reported with its status code in the message, a missing peer key
      with its own message, and any exception under the "Error during key exchange: "
      prefix. On success `final_key` is the SHA-256 of the shared value, which is the
      exact dot product of `s` with the peer's vector reduced modulo 2^14. */
  function SwooshNikeRoute(dr: Draws, transport: seq<byte> -> Reply, sha: Hash): (r: Response)
    requires DrawsFit(SwooshGenerateParameters(), dr)
    ensures r.Json? && r.status == 200
    ensures var reply := transport(SentKey(dr));
      && (reply.Reply? && reply.status != 200 ==>
            IsFailure(r) && r.fields["error"] == Str("Server 2 responded with status code " + StatusText(reply.status)))
      && (reply.Reply? && reply.status == 200 && reply.body.Some? && "server_public_key" !in reply.body.value ==>
            IsFailure(r) && r.fields["error"] == Str("Server public key not found in response"))
      && (reply.Unreachable? ==> IsFailure(r) && r.fields["error"] == Str("Error during key exchange: " + reply.message))
      && (IsSuccess(r) <==> PeerKeyUsable(reply))
      && (!IsSuccess(r) ==> IsFailure(r))
      && (PeerKeyUsable(reply) ==>
            var peer := Chunks(Hex.Decode(reply.body.value["server_public_key"].s).value);
            && "server2_public_key" in r.fields && "final_key" in r.fields
            && r.fields["server2_public_key"] == reply.body.value["server_public_key"]
            && r.fields["final_key"] == Str(HexDigest(sha, Int64ToLe(Dot(dr.s, peer) % SharedModulus))))
  {
    var keys := SwooshGenerateKeys(SwooshGenerateParameters(), dr).value;
    assert AllInt64(keys.s);
    Catch(SwooshExchange(keys, SentKey(dr), transport(SentKey(dr)), sha), "Error during key exchange: ", 200)
  }
}
