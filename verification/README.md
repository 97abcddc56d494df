# Shadow Crypt key-exchange services: a Dafny model

Shadow Crypt demonstrates key-exchange and key-encapsulation protocols between two
Flask services. The Initiator (`service/server1`) generates a key pair and posts its
public half to the Responder (`service/server2`). The Responder answers with its
own public key or a ciphertext. Each side then derives a shared secret, and the
Initiator reports it as a JSON envelope. The cryptography lives in a Rust extension,
`shadow_crypt`, exposed to Python through pyo3.

This project models:

- the extension's Diffie-Hellman (`dh.rs` and the older decimal-string functions of
  `lib.rs`), X25519, RSA, Swoosh and Kyber entry points, and the NTRU entry points
  of `ntru.rs`;
- the Swoosh helpers and `/swoosh` route of `routes/app.py`;
- every route of both services;
- the two services composed.

Each route is a pure function of its random draws and of a `transport`: what the
HTTP post to the other service returns. `Exchange` plugs the Responder in as that
transport and proves the end-to-end properties. For DH, X25519, RSA and Kyber, both
sides end with the same secret. For NTRU, they do so in the corrected route.

Modules:

| module | role |
|---|---|
| `Wrappers` | `Option` and `Result` |
| `Python` | exceptions (`Error` for a Python exception, `Panic` for a Rust panic) and `Outcome` |
| `ModArith` | modular exponentiation, with the lemma that `(g^a)^b = (g^b)^a` mod p |
| `Bytes` | `to_bytes_be` / `from_bytes_be`, `int64` little-endian bytes |
| `Decimal` | num-bigint's `parse_bytes(_, 10)` and `to_str_radix(10)` |
| `Hex` | Python's `bytes.hex()` and `bytes.fromhex()` |
| `MachineInt` | Rust `i8`/`i16`/`usize` wrap-around and truncating `%` |
| `Dh` | `dh.rs` |
| `DhParam` | `generate_dh_key(p, g)` / `derive_dh_shared_key(.., p)` of `lib.rs` |
| `SwooshRs` | `swoosh_generate_keys` / `swoosh_derive_shared_key` of `lib.rs` |
| `SwooshPy` | the numpy Swoosh helpers and `/swoosh` route of `routes/app.py` |
| `Ntru` | `ntru.rs` |
| `Library` | X25519, RSA and Kyber wrappers of `lib.rs`; the opaque primitives |
| `Envelope` | JSON envelopes, Flask's handling of uncaught exceptions, reply inspection |
| `Responder` | `service/server2/f_server_2.py` |
| `Initiator` | `service/server1/f_server_1.py` |
| `Exchange` | both services composed |

Modelling decisions:

- **Opaque primitives.** SHA-256, X25519, RSA PKCS#1 v1.5, Kyber and the NTRU
  mechanism are function-valued fields of the `Library` and `Ntru.Kem` records.
  Where a property needs one of them to be correct, the lemma says so in a
  `requires`. Examples: X25519 agreement for the two secrets, decryption inverting
  encryption, KEM correctness.
- **Randomness.** Every random draw is a parameter, with its range as a
  precondition: the DH exponent in `[2, p)`, the 32 X25519 secret bytes, the
  Swoosh matrix and vector entries, the KEM coins, and the 48 bytes of NTRU entropy.
- **Exceptions and panics.**
  - A Python exception is `Error`.
  - A Rust panic surfaces in Python as pyo3's `PanicException`. That derives from
    `BaseException`, so `except Exception` does not catch it. The model gives no
    response in that case (`NoResponse`). When the Initiator sees it from the other
    side, the post raises a connection error (`Unreachable`).
  - An exception a route does not catch becomes Flask's plain 500 page
    (`InternalServerError`).
- **Machine integers.** Rust's `i8`, `i16` and `usize` arithmetic is written out:
  wrapping casts, wrapping sums (a release build), and `%` that truncates toward
  zero and panics on a zero divisor or on `MIN % -1`. numpy's default integer is
  `int64`.
- **Extension registration.** The `lib.rs` shown registers `generate_dh_key(p, g)`
  and does not register the `dh.rs` or `ntru.rs` functions. The two services,
  however, call `generate_dh_key()` with no arguments and call the `ntru_*`
  functions. The model takes it that the extension the services load exports the
  `dh.rs` and `ntru.rs` functions under those names. It models the `lib.rs` pair
  separately as `DhParam`.
- **Responder used by `routes/app.py`.** The `/swoosh` route posts to
  `/swoosh_receive`, and `f_server_2.py` has no such route. `Exchange` therefore
  gives the Responder's answer as Flask's 404.

## Model

| member | source | states |
|---|---|---|
| Bytes.ToBytesBe | shadow_crypt/src/dh.rs:18 | `to_bytes_be` is minimal, its leading byte is zero exactly for the value 0, and it decodes back to the value |
| Bytes.BeMinimalRoundTrip | shadow_crypt/src/dh.rs:24-28 | a minimal big-endian string survives decoding and re-encoding unchanged |
| Bytes.Int64RoundTrip | routes/app.py:117-121 | an `int64` written as 8 little-endian bytes reads back as itself |
| ModArith.Agreement | shadow_crypt/src/dh.rs:16-27 | `(g^b mod p)^a mod p == (g^a mod p)^b mod p` for every modulus `p > 0` |
| Dh.GenerateDhKey | shadow_crypt/src/dh.rs:10-19 | the private key decodes to the drawn exponent in `[2, p)`; the public key decodes to `2^x mod p`, below `p`; both are minimal big-endian |
| Dh.DeriveDhSharedKey | shadow_crypt/src/dh.rs:22-29 | for any byte strings, the result decodes to `peer^private mod p`, is below `p`, and is minimal |
| Dh.SharedValue | shadow_crypt/src/dh.rs:15-27 | the key derived from a private key `a` and a public key for `b` decodes to `(g^b)^a mod p` |
| Dh.DhAgreement | shadow_crypt/src/dh.rs:10-29 | `derive(a, pub(b)) == derive(b, pub(a))` for every pair of exponents |
| Decimal.ToDecimal | shadow_crypt/src/lib.rs:23 | `to_str_radix(10)` gives only digits, has a leading zero only for the value 0, and has the value as its digit value |
| Decimal.RoundTrip | shadow_crypt/src/lib.rs:23-29 | parsing the decimal text of `n` gives back `n` |
| Decimal.ParseRejects | shadow_crypt/src/lib.rs:16-17 | `parse_bytes(_, 10)` fails exactly when the unsigned part is not a numeral; the empty string and any other character are refused |
| DhParam.GenerateDhKey | shadow_crypt/src/lib.rs:15-24 | `Invalid p` is checked before `Invalid g`; `p = 0` panics; on success the two texts are exactly the `to_str_radix(10)` of the draw below `p` and of `g^x mod p`, and parse back to them |
| DhParam.DeriveDhSharedKey | shadow_crypt/src/lib.rs:27-34 | the errors in the order p, private_key, server_public_key; `p = 0` panics; success exactly when all three parse and `p > 0`, giving exactly the `to_str_radix(10)` text of `peer^private mod p` |
| DhParam.ParamAgreement | shadow_crypt/src/lib.rs:15-34 | two key pairs generated over the same `p` and `g` derive the same shared text, and derivation succeeds |
| Hex.Encode | service/server1/f_server_1.py:15 | `bytes.hex()` has twice as many characters as bytes, all lower-case hex digits |
| Hex.Decode | service/server1/f_server_1.py:27 | `bytes.fromhex` refuses any character that is neither a hex digit nor whitespace; on text without whitespace it refuses an odd length and otherwise gives one byte per two characters |
| Hex.DecodeLength | service/server1/f_server_1.py:27 | with whitespace anywhere, every decoded byte takes two of the characters that are not whitespace, so an odd number of them is refused |
| Hex.RoundTrip | service/server2/f_server_2.py:17 | `fromhex(hex(b)) == b` |
| Hex.CanonicalRoundTrip | service/server1/f_server_1.py:27-38 | a lower-case hex string that decodes re-encodes to itself |
| Hex.EncodeInjective | service/server1/f_server_1.py:15 | two byte strings with the same hex text are equal |
| Envelope.HexDigest | service/server1/f_server_1.py:32 | `sha256(..).hexdigest()` is 64 lower-case hex digits that decode to the digest |
| Envelope.CatchOnlyHandlesErrors | service/server2/f_server_2.py:15-34 | `try/except Exception` changes the outcome of a handler exactly when its body raises an ordinary exception, answering a failure envelope with the route's status whose error starts with the route's prefix; a response or a panic comes out as without the `try` |
| Envelope.HandlerAsSeenByCaller | service/server1/f_server_1.py:10-40 | the caller gets a JSON body from a handler without `try` exactly when the body returned JSON, and from one with `try/except Exception` also for every ordinary exception; with or without it, exactly a panic drops the connection |
| Envelope.JsonRoundTrip | service/server1/f_server_1.py:22 | `response.json()` on what a handler answered gives back exactly the fields it passed to `jsonify`, with its status; Flask's 500 page makes it raise; only a panic leaves no reply |
| Envelope.FromHexValueRoundTrip | service/server1/f_server_1.py:27 | `bytes.fromhex` on a JSON string the peer wrote with `.hex()` gives back its bytes, and a lower-case hex string that decodes is the `.hex()` of its bytes |
| MachineInt.WrapI8 | shadow_crypt/src/lib.rs:88-90 | `as i8` is congruent to its input modulo 256 and is the identity on the `i8` range |
| MachineInt.TruncRem | shadow_crypt/src/lib.rs:91 | Rust's `%`: smaller in magnitude than the divisor, the sign of the dividend, congruent to the dividend |
| MachineInt.TruncRemUnique | shadow_crypt/src/lib.rs:91 | any remainder with those three properties is Rust's `%` |
| MachineInt.WrapI16 | shadow_crypt/src/lib.rs:97 | `as i16` is congruent to its input modulo 2^16 and is the identity on the `i16` range |
| MachineInt.WrapUsize | shadow_crypt/src/lib.rs:91 | `as usize` is congruent to its input modulo 2^64; a non-negative value is reduced, and a negative one above `-2^64` gains `2^64` |
| MachineInt.TruncDivision | shadow_crypt/src/lib.rs:91 | Rust's truncating `/` and `%` satisfy `a == (a / b) * b + a % b` |
| MachineInt.QuotientOverflow | shadow_crypt/src/lib.rs:91 | for operands of a signed width the quotient overflows exactly for `MIN / -1` |
| MachineInt.RemI8Meaning | shadow_crypt/src/lib.rs:91 | `i8 % i8` panics exactly when the divisor is zero or the quotient overflows `i8`, and otherwise `a == (a / b) * b + a % b` |
| MachineInt.RemI16Meaning | shadow_crypt/src/lib.rs:97 | `i16 % i16` panics exactly when the divisor is zero or the quotient overflows `i16`, and otherwise `a == (a / b) * b + a % b` |
| MachineInt.WrappingSumIsWrappedSum | shadow_crypt/src/lib.rs:91 | `iter().sum::<i8>()` wrapping at each step equals the exact sum wrapped once |
| SwooshRs.ReduceAll | shadow_crypt/src/lib.rs:91 | `map(t % q).collect()` panics exactly when some element panics, and otherwise reduces every element in order |
| SwooshRs.SwooshGenerateKeys | shadow_crypt/src/lib.rs:85-93 | `n = 0` or `q = 0` panics; otherwise a panic exactly when `q as i8` is 0, or is -1 with a row value of -128; `s` is the draws cast to `i8`; each public entry is its row value reduced by `q as i8` |
| SwooshRs.PublicKeyEntries | shadow_crypt/src/lib.rs:91 | each public entry is `(sum(row i) + e[s[i] as usize % n]) % q` in `i8`: `s` selects an entry of `e` and is never multiplied in |
| SwooshRs.SmallModulusKeys | shadow_crypt/test_shadow_crypt.py:38 | for `0 < q <= 127` and `n > 0`, generation succeeds, `s` equals the draws, and each public entry lies strictly between `-q` and `q` |
| SwooshRs.IgnoresD | shadow_crypt/src/lib.rs:86 | the parameter `d` does not affect the keys |
| SwooshRs.Product | shadow_crypt/src/lib.rs:97 | `s as i16 * p as i16` is the exact product: it never overflows |
| SwooshRs.SwooshDeriveSharedKey | shadow_crypt/src/lib.rs:96-99 | as long as the shorter key; panics exactly when the zip is non-empty and `q as i16` is 0; entry `i` is `s[i]*p[i] % q` cast to `i8` |
| SwooshRs.SmallModulusShared | shadow_crypt/test_shadow_crypt.py:43 | for `0 < q <= 127`, derivation succeeds and each entry is congruent to `s[i]*p[i]`, with its sign, strictly between `-q` and `q` |
| SwooshPy.FixedParametersSucceed | routes/app.py:106-115 | with the route's parameters key generation never raises and gives 32 entries in `[0, q)`, and `q` is the modulus `swoosh_derive_shared_key` hard-codes |
| SwooshPy.SwooshGenerateKeys | routes/app.py:109-115 | `N = 0` never raises; otherwise `q > 2^63` raises the out-of-bounds error, then `q <= 0` the empty-range error, then a negative `N` the negative-dimensions error; on success the private key is `s`, and each of the `N` public entries lies in `[0, q)` and is congruent to `A[i]·s + e[i]` |
| SwooshPy.FixedParametersNoOverflow | routes/app.py:110-114 | with the fixed parameters every `A[i]·s + e[i]` fits `int64`, so numpy's arithmetic is exact |
| SwooshPy.Serialize | routes/app.py:117-118 | `tobytes()` gives 8 bytes per `int64` entry |
| SwooshPy.Deserialize | routes/app.py:120-121 | `frombuffer(.., dtype=int)` succeeds exactly when the length is a multiple of 8, and otherwise raises the buffer-size error |
| SwooshPy.SerializeRoundTrip | routes/app.py:117-121 | deserializing a serialized key gives the key back |
| SwooshPy.WrapKeepsResidue | routes/app.py:125 | reducing a wrapped `int64` modulo `2^14` gives the exact residue |
| SwooshPy.SwooshDeriveSharedKey | routes/app.py:123-126 | succeeds exactly for keys of equal length; the 8 result bytes read as a value in `[0, 2^14)` congruent to `s·p` |
| SwooshPy.SharedBytes | routes/app.py:123-126 | for key entries that fit `int64`, the result is the bytes of `(s·p) mod 2^14` |
| SwooshPy.PeerVector | routes/app.py:147 | `deserialize(bytes.fromhex(..))` on the peer's value succeeds exactly for a hex string of whole 8-byte words, giving its `int64` chunks; otherwise it raises |
| SwooshPy.SwooshFinish | routes/app.py:147-161 | for a hex peer key of `N` entries the route answers the success envelope echoing the peer's key, with `final_key` the SHA-256 of the bytes of `(s·peer) mod 2^14`; any other peer value raises |
| SwooshPy.SwooshExchange | routes/app.py:141-165 | an unreachable peer and a 200 reply whose body is not JSON raise, a non-200 status and a missing `server_public_key` give their failure envelopes, and a present key is handed to the derivation step |
| SwooshPy.SwooshNikeRoute | routes/app.py:133-167 | the status is always 200; a non-200 reply, a missing key and an unreachable peer each give their error; success exactly when the peer key deserializes to `N` entries, giving the SHA-256 of the bytes of `(s·peer) mod 2^14` |
| Ntru.NtruGenerateKeypair | shadow_crypt/src/ntru.rs:28-36 | keys at their exact sizes, taken from the mechanism, or `Failed to generate key pair: ` plus the library's error |
| Ntru.NtruEncapsulate | shadow_crypt/src/ntru.rs:40-51 | `Invalid public key length` exactly for a wrong-length key; otherwise a ciphertext and secret of the exact sizes from the mechanism, or `Encryption failed: ` plus its error |
| Ntru.NtruDecapsulate | shadow_crypt/src/ntru.rs:55-65 | the private key length is checked first, then the ciphertext length, each exactly; otherwise the secret of exact size, or `Decryption failed: ` plus the error |
| Ntru.KemRoundTrip | shadow_crypt/src/ntru.rs:28-65 | for a correct mechanism, decapsulating an encapsulation under a generated pair gives back the encapsulated secret |
| Library.EcdhAgreement | shadow_crypt/src/lib.rs:38-52 | a key pair from `generate_ecdh_key` passes the length checks of `derive_ecdh_shared_key`, and given X25519 agreement both sides derive the same bytes |
| Library.RsaRoundTrip | shadow_crypt/src/lib.rs:70-81 | when decryption inverts encryption, a string sent through `rsa_encrypt` comes back from `rsa_decrypt` unchanged |
| Library.RsaArgumentsCheckedFirst | shadow_crypt/src/lib.rs:70-74 | an argument that is not a string is refused with a `TypeError` before the primitive runs, whatever the primitive |
| Library.KyberRoundTrip | shadow_crypt/src/lib.rs:108-129 | for a correct mechanism, keys from `kyber_keygen` encapsulate, and `kyber_decapsulate` gives back the encapsulated secret |
| Library.KyberErrorsSurface | shadow_crypt/src/lib.rs:102-129 | each Kyber wrapper raises exactly when the library errs, with a `ValueError` carrying the library's text, never a panic |
| Responder.ReceivePublicKey | service/server2/f_server_2.py:13-34 | always 200; success exactly when the body decodes as hex; success carries the SHA-256 hex of the DH shared key and a public key that decodes; failure carries `Key exchange failed: ` plus the `fromhex` error |
| Responder.ReceivePublicKeyEllCurve | service/server2/f_server_2.py:37-60 | a body that is not hex gives a 200 failure; a key that is not 32 bytes gives no response (panic); a 32-byte key gives the success envelope with the hashed X25519 secret and the Responder's public key |
| Responder.KeyAgreementFieldsDecode | service/server2/f_server_2.py:24-30 | the `server_public_key` a Responder sends decodes back to its public key |
| Responder.Encrypt | service/server2/f_server_2.py:63-79 | a body that is not JSON, then a missing `public_key`, then a missing `message`, is a 200 failure, the last two naming the key; a non-string argument is a 200 failure; a key that will not parse gives no response; success carries the hex ciphertext and echoes the key |
| Responder.EncapsulationFieldsDecode | service/server2/f_server_2.py:89-93 | the `ciphertext` a Responder sends decodes back to the ciphertext |
| Responder.KyberEncapsulateHandler | service/server2/f_server_2.py:82-95 | always 200; success exactly when the body decodes and encapsulation succeeds, carrying the ciphertext and secret in hex; a failure has only `success` and `error` |
| Responder.NtruEncapsulateHandler | service/server2/f_server_2.py:98-114 | always 200; success exactly when the body decodes and `ntru_encapsulate` succeeds; a wrong-length key fails with `Invalid public key length` |
| Initiator.DiffieHellmanRoute | service/server1/f_server_1.py:9-40 | a non-200 reply is passed on with `Server 2 error: N`; a reply without `server_public_key` gives 500; a hex key gives the success envelope hashing `peer^x mod p`; any other reply gives Flask's 500 |
| Initiator.EcdhRoute | service/server1/f_server_1.py:43-76 | a non-200 reply is passed on; a reply without a key gives 500; a key that is not 32 bytes gives no response; an unreachable peer or bad JSON gives a 200 failure; otherwise the hashed X25519 secret |
| Initiator.RsaRoute | service/server1/f_server_1.py:79-125 | a body that is not JSON gives a 500 failure; the message defaults to `Hello, world!`; a non-200 reply keeps its status; a reply without `encrypted_message` and an unreachable peer give 500 failures; a ciphertext that decrypts gives the plaintext; one that does not gives no response (panic) |
| Initiator.KyberRoute | service/server1/f_server_1.py:128-149 | a key-generation error gives Flask's 500; a non-200 reply is passed on as `Error contacting Server 2`; a reply without `ciphertext` gives a 200 failure; otherwise the decapsulated secret in hex |
| Initiator.NtruRouteAsWritten | service/server1/f_server_1.py:152-183 | the route as written never succeeds: whenever the reply carries a ciphertext, decapsulation is handed a list and the route gives Flask's 500 |
| Initiator.NtruRoute | service/server1/f_server_1.py:152-183 | the corrected route: a reply without `ciphertext` gives 500; otherwise the decapsulated secret and its SHA-256 hex |
| Exchange.DhExchange | service/server1/f_server_1.py:12-39 | against the Responder, the route succeeds and its `final_key` equals the Responder's |
| Exchange.EcdhExchange | service/server1/f_server_1.py:47-73 | given X25519 agreement, the route succeeds and both `final_key`s are equal |
| Exchange.RsaExchange | service/server1/f_server_1.py:83-122 | when decryption inverts encryption, `decrypted_message` is the message sent |
| Exchange.RsaNonStringMessage | service/server2/f_server_2.py:67-79 | a message that is not a string makes the route answer 500 `Encryption failed at Server 2` |
| Exchange.KyberExchange | service/server1/f_server_1.py:131-149 | under KEM correctness, the Initiator's `shared_secret` equals the Responder's |
| Exchange.KyberEncapsulationFails | service/server1/f_server_1.py:138-139 | a failed encapsulation is reported as a failure with status 200 |
| Exchange.NtruExchange | service/server1/f_server_1.py:155-183 | with the corrected route and a correct mechanism, both `shared_secret`s are equal and `final_key` hashes it |
| Exchange.NtruAsWrittenFails | service/server1/f_server_1.py:173 | where the corrected route succeeds, the route as written answers Flask's 500 |
| Exchange.NtruEncapsulationFails | service/server1/f_server_1.py:166-167 | a failed encapsulation is reported as 500 `NTRU encapsulation failed at Server 2` |
| Exchange.SwooshWithoutResponder | routes/app.py:141-165 | against the 404 of the missing `/swoosh_receive`, the route answers 200 with `Server 2 responded with status code 404` |

## Definitions

These members only spell out what a library call or a Python idiom does. Their
contracts are stated for the callers' proofs, and the property that gives each its
meaning is stated by the member named after it.

- `Envelope.Catch`, `Envelope.Uncaught` (`service/server2/f_server_2.py:15-34`, `service/server1/f_server_1.py:10-40`): `CatchOnlyHandlesErrors`, `HandlerAsSeenByCaller`.
- `Envelope.AsReply`, `Envelope.JsonBody` (`service/server1/f_server_1.py:20-22`): `JsonRoundTrip`, `HandlerAsSeenByCaller`.
- `Envelope.FromHexValue`, `Envelope.FromHex` (`service/server1/f_server_1.py:27`, `service/server2/f_server_2.py:17`): `FromHexValueRoundTrip`.
- `MachineInt.RemI8`, `MachineInt.RemI16` (`shadow_crypt/src/lib.rs:91`, `:97`): `RemI8Meaning`, `RemI16Meaning`.
- `Bytes.Int64ToLe`, `Bytes.LeToInt64` (`routes/app.py:117-121`): `Int64RoundTrip`.
- `SwooshPy.SwooshGenerateParameters` (`routes/app.py:106-107`): `FixedParametersSucceed`, `FixedParametersNoOverflow`.
- `Ntru.TryInto` (`shadow_crypt/src/ntru.rs:47`, `:60-61`): `NtruEncapsulate` and `NtruDecapsulate`, whose contracts show the conversion cannot fail after the length checks.
- `Library.GenerateEcdhKey`, `Library.DeriveEcdhSharedKey` (`shadow_crypt/src/lib.rs:38-52`): `EcdhAgreement`.
- `Library.RsaEncrypt`, `Library.RsaDecrypt` (`shadow_crypt/src/lib.rs:70-81`): `RsaRoundTrip`, `RsaArgumentsCheckedFirst`.
- `Library.KyberResult`, `Library.KyberKeygen`, `Library.KyberEncapsulate`, `Library.KyberDecapsulate` (`shadow_crypt/src/lib.rs:102-129`): `KyberRoundTrip`, `KyberErrorsSurface`.
- `Initiator.MessageOf` (`service/server1/f_server_1.py:87`): `Initiator.RsaRoute`, whose contract states the default message.
- `Responder.Health` (`service/server2/f_server_2.py:8-10`): its contract says the answer is status 200 with `status: ok`, neither a success nor a failure envelope; it has no partner.

## Left out

- The Streamlit UI (`streamlit_app.py`, `tabs/`, `utils/`), persistence and `utils/protocol_testing.py`: presentation and I/O, not key exchange.
- `app.py`, `protocols.py`, `routes/f_server_1.py`, `routes/f_server_2.py`, `routes/protocols.py`, and the DH, ECDH and RSA routes of `routes/app.py` (lines 11-103): earlier versions of the same protocols.
- `generate_rsa_key` (`lib.rs:56-67`): key generation is random, so the PEM pair is an input of the RSA route.
- `ecdh.rs`, `rsa.rs`, `kyber.rs`, and the internals of X25519, RSA, Kyber, NTRU and SHA-256: these are opaque functions.
- The RSA padding randomness is folded into the opaque encryption function.
- `seeded_rng` in `ntru.rs` always returns `Ok`, so its `RNG initialization failed` branches are never taken and are not modelled.
- HTTP and Flask framing: headers, content types, and `debug=True`.
- Bodies are modelled as already-decoded text, so the UTF-8 failure of `request.data.decode()` is not modelled.
- A JSON body is modelled as an object or as absent; JSON arrays and scalars are not modelled.
- The exact wording of Python, pyo3 and werkzeug error messages is approximated. Only the route's own prefixes and the extension's messages are exact.
- SwooshPy.SwooshGenerateKeys: the dot products are exact integers; `int64` overflow is not modelled for parameters other than the fixed ones, for which `FixedParametersNoOverflow` shows none occurs. The final `% q` with `q = 2^63` (or, for `N = 0`, any `q >= 2^63`) mixes `int64` with a Python integer beyond it, which numpy 1 answers in `float64` and numpy 2 refuses with an `OverflowError`; the model returns the exact residues there.
- SwooshRs.SwooshGenerateKeys: `n * n` is not wrapped at `usize`, because a matrix that large cannot be allocated; overflow panics of a debug build are not modelled (a release build is assumed).
- Ntru.KemRoundTrip: follows from the mechanism's correctness, which is a precondition, not something proved about NTRU.

## Findings

| source | as written | input that shows it | evidently intended | confidence | as-written member | corrected member |
|---|---|---|---|---|---|---|
| service/server1/f_server_1.py:173 | `ntru_decapsulate(ntru_private_key, ..)` passes the private key as pyo3 returned it from a `Vec<u8>`: a Python list. `ntru_decapsulate` takes `&[u8]`, which pyo3 extracts only from `bytes`, so the call raises `TypeError`. | any exchange in which the Responder answers 200 with a `ciphertext` | pass `bytes(ntru_private_key)`, as line 158 already does for the hex form | medium, not executed | Initiator.NtruRouteAsWritten | Initiator.NtruRoute |
