/**
 * The CRYSTALS-Kyber (round 3) parameter sets of libs/params.h.
 *
 * Every buffer size the stealth-address protocol uses is a closed-form
 * function of the security level KYBER_K, which the build fixes to one of
 * 2 (Kyber512), 3 (Kyber768) or 4 (Kyber1024); any other value stops the
 * build. The size functions below are stated for every admissible level;
 * the rest of the model works at the level the build selects by default.
 */
module Params {
  import opened Wrappers

  /** The levels the build accepts. */
  type KyberLevel = k: int | 2 <= k <= 4 witness 3

  /** KYBER_K as libs/params.h sets it when the build does not override it. */
  const K: KyberLevel := 3

  const BuildError := "KYBER_K must be in {2,3,4}"

  /**
   * The symbol prefix the preprocessor selects for a level, with or without
   * the 90s variant, or the build error for any other level.
   */
  function Namespace(k: int, ninetyS: bool): (r: Result<string, string>)
    ensures r.Ok? <==> k == 2 || k == 3 || k == 4
    ensures r.Err? ==> r.error == BuildError
    ensures r.Ok? ==> |r.value| > 0 && r.value[|r.value| - 1] == '_'
  {
    if k == 2 then
      Ok(if ninetyS then "pqcrystals_kyber512_90s_avx2_" else "pqcrystals_kyber512_avx2_")
    else if k == 3 then
      Ok(if ninetyS then "pqcrystals_kyber768_90s_avx2_" else "pqcrystals_kyber768_avx2_")
    else if k == 4 then
      Ok(if ninetyS then "pqcrystals_kyber1024_90s_avx2_" else "pqcrystals_kyber1024_avx2_")
    else
      Err(BuildError)
  }

  /** Two different builds never share a symbol prefix. */
  lemma NamespacesDistinct(k1: int, s1: bool, k2: int, s2: bool)
    requires Namespace(k1, s1).Ok? && Namespace(k2, s2).Ok?
    requires (k1, s1) != (k2, s2)
    ensures Namespace(k1, s1).value != Namespace(k2, s2).value
  {
    var n1, n2 := Namespace(k1, s1).value, Namespace(k2, s2).value;
    if |n1| == |n2| {
      // equal lengths only for Kyber512 and Kyber768 in the same variant,
      // whose prefixes differ right after "pqcrystals_kyber"
      assert n1[16] != n2[16];
    }
  }

  /** Ring degree and modulus. */
  const N := 256
  const Q := 3329

  /** Sizes in bytes of hashes and seeds, and of the shared secret. */
  const SymBytes := 32
  const SsBytes := 32

  /** Size in bytes of one serialised polynomial. */
  const PolyBytes := 384

  /** Size in bytes of a serialised vector of k polynomials. */
  function PolyVecBytes(k: KyberLevel): nat {
    k * PolyBytes
  }

  /** The noise parameter eta1 of each level. */
  function Eta1(k: KyberLevel): (r: nat)
    ensures r == 3 <==> k == 2
    ensures r == 2 <==> k != 2
  {
    if k == 2 then 3 else if k == 3 then 2 else 2
  }

  /** The noise parameter eta2, the same at every level. */
  const Eta2 := 2

  function PolyCompressedBytes(k: KyberLevel): nat {
    if k == 2 then 128 else if k == 3 then 128 else 160
  }

  function PolyVecCompressedBytes(k: KyberLevel): nat {
    if k == 2 then k * 320 else if k == 3 then k * 320 else k * 352
  }

  const IndcpaMsgBytes := SymBytes

  /** The IND-CPA public key: the serialised vector followed by the matrix seed. */
  function IndcpaPublicKeyBytes(k: KyberLevel): nat {
    PolyVecBytes(k) + SymBytes
  }

  function IndcpaSecretKeyBytes(k: KyberLevel): nat {
    PolyVecBytes(k)
  }

  function IndcpaBytes(k: KyberLevel): nat {
    PolyVecCompressedBytes(k) + PolyCompressedBytes(k)
  }

  /** The KEM public key is exactly the IND-CPA public key. */
  function PublicKeyBytes(k: KyberLevel): (r: nat)
    ensures r == IndcpaPublicKeyBytes(k)
    ensures r == 384 * k + 32
  {
    IndcpaPublicKeyBytes(k)
  }

  /** The KEM secret key: IND-CPA secret key, public key, then two more 32-byte values. */
  function SecretKeyBytes(k: KyberLevel): (r: nat)
    ensures r == 768 * k + 96
  {
    IndcpaSecretKeyBytes(k) + IndcpaPublicKeyBytes(k) + 2 * SymBytes
  }

  /** The ciphertext: a compressed vector and a compressed polynomial. */
  function CiphertextBytes(k: KyberLevel): (r: nat)
    ensures k <= 3 ==> r == 320 * k + 128
    ensures k == 4 ==> r == 352 * k + 160
  {
    IndcpaBytes(k)
  }

  /** The stealth public key of src/protocol.c: the public vector without its seed. */
  function StealthAddressBytes(k: KyberLevel): (r: nat)
    ensures r == PolyVecBytes(k)
    ensures r + SymBytes == PublicKeyBytes(k)
  {
    k * PolyBytes
  }

  /** The byte sizes of the three parameter sets, as FIPS 203 section 8 lists them. */
  lemma ParameterSetSizes()
    ensures (PublicKeyBytes(2), SecretKeyBytes(2), CiphertextBytes(2)) == (800, 1632, 768)
    ensures (PublicKeyBytes(3), SecretKeyBytes(3), CiphertextBytes(3)) == (1184, 2400, 1088)
    ensures (PublicKeyBytes(4), SecretKeyBytes(4), CiphertextBytes(4)) == (1568, 3168, 1568)
  {
  }

  /** A shared secret has exactly the size of a seed, so it can stand where a seed is expected. */
  lemma SharedSecretIsSeedSized()
    ensures SsBytes == SymBytes == IndcpaMsgBytes
  {
  }
}
