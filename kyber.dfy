/**
 * The interface of the pre-built CRYSTALS-Kyber library the protocol calls
 * (libs/kem.h, libs/indcpa.h, libs/poly.h, libs/polyvec.h, libs/fips202.h).
 *
 * The library's code is not part of this model. Each routine the protocol
 * uses becomes a field of `Library`: an arbitrary, total, deterministic
 * function of its inputs, with no property assumed beyond its signature.
 * The one exception is `shake128`, typed as an output stream: that an
 * output is a prefix of any longer output is thereby assumed.
 * The fixed C array sizes become subset types, so a routine can only
 * return a buffer of the size its C prototype writes.
 */
module Kyber {
  import opened Params

  /** uint8_t */
  newtype byte = x: int | 0 <= x < 0x100

  /** A coefficient of a polynomial: int16_t. */
  type Coeff = x: int | -0x8000 <= x < 0x8000

  /** poly: KYBER_N coefficients. */
  type Poly = p: seq<Coeff> | |p| == N witness seq(N, _ => 0)

  /** polyvec: KYBER_K polynomials. */
  type PolyVec = v: seq<Poly> | |v| == K witness ZeroPolys

  /** The matrix A: KYBER_K rows, each a polyvec. */
  type Matrix = a: seq<PolyVec> | |a| == K witness ZeroRows

  /** The all-zero values a `= {0}` initialiser gives. */
  const ZeroPoly: Poly := seq(N, _ => 0)
  const ZeroPolys: seq<Poly> := seq(K, _ => ZeroPoly)
  const ZeroRows: seq<PolyVec> := seq(K, _ => ZeroPolys)

  type Seed = s: seq<byte> | |s| == SymBytes witness seq(SymBytes, _ => 0)
  type SharedSecret = s: seq<byte> | |s| == SsBytes witness seq(SsBytes, _ => 0)
  type PublicKey = s: seq<byte> | |s| == PublicKeyBytes(K) witness seq(PublicKeyBytes(K), _ => 0)
  type SecretKey = s: seq<byte> | |s| == SecretKeyBytes(K) witness seq(SecretKeyBytes(K), _ => 0)
  type Ciphertext = s: seq<byte> | |s| == CiphertextBytes(K) witness seq(CiphertextBytes(K), _ => 0)

  /** The serialised public vector, KYBER_POLYVECBYTES long: also the stealth public key. */
  type StealthKey = s: seq<byte> | |s| == StealthAddressBytes(K) witness seq(StealthAddressBytes(K), _ => 0)

  /** Randomness the library draws internally (randombytes), made explicit. */
  type Coins = seq<byte>

  /**
   * The library routines the protocol calls. The key-generation and
   * encapsulation routines are their `_derand` forms, so the random bytes
   * they would draw are an explicit argument.
   */
  datatype Library = Library(
    // crypto_kem_keypair: a (public, secret) key pair
    keypair: Coins -> (PublicKey, SecretKey),
    // crypto_kem_enc: a ciphertext and the shared secret it encapsulates
    enc: (PublicKey, Coins) -> (Ciphertext, SharedSecret),
    // crypto_kem_dec: the shared secret recovered from a ciphertext
    dec: (Ciphertext, SecretKey) -> SharedSecret,
    // unpack_pk: the public vector and the matrix seed of a serialised key
    unpackPk: PublicKey -> (PolyVec, Seed),
    // gen_matrix: A (flag 0) or its transpose, from a seed
    genMatrix: (Seed, int) -> Matrix,
    // poly_getnoise_eta1: a noise polynomial from a 32-byte seed and a nonce
    getNoiseEta1: (Seed, byte) -> Poly,
    // polyvec_basemul_acc_montgomery: the inner product of two vectors
    basemulAccMontgomery: (PolyVec, PolyVec) -> Poly,
    // poly_tomont
    tomont: Poly -> Poly,
    // polyvec_add
    polyvecAdd: (PolyVec, PolyVec) -> PolyVec,
    // polyvec_reduce
    polyvecReduce: PolyVec -> PolyVec,
    // polyvec_tobytes
    polyvecToBytes: PolyVec -> StealthKey,
    // SHAKE128 as an extendable-output function: the output stream of an input
    shake128: seq<byte> -> nat -> byte
  )

  /** shake128(out, outlen, in, inlen): the first outlen bytes of the output stream. */
  function Shake128(lib: Library, input: seq<byte>, outlen: nat): (out: seq<byte>)
    ensures |out| == outlen
  {
    seq(outlen, (i: nat) => lib.shake128(input)(i))
  }

  /**
   * An extendable output: a shorter request yields a prefix of a longer one.
   * It holds by construction of the stream model of `shake128`.
   */
  lemma Shake128Prefix(lib: Library, input: seq<byte>, short: nat, long: nat)
    requires short <= long
    ensures Shake128(lib, input, short) == Shake128(lib, input, long)[..short]
  {
  }

  /**
   * The correctness of the KEM: decapsulating, with the matching secret key,
   * a ciphertext encapsulated to a public key yields the encapsulated secret.
   * The library is not part of this model, so this is a hypothesis wherever
   * it is used, never a fact.
   */
  ghost predicate DecapsulationCorrect(lib: Library) {
    forall keyCoins: Coins, encCoins: Coins ::
      lib.dec(lib.enc(lib.keypair(keyCoins).0, encCoins).0, lib.keypair(keyCoins).1)
        == lib.enc(lib.keypair(keyCoins).0, encCoins).1
  }
}
