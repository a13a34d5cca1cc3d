/**
 * The stealth-address protocol of src/protocol.c.
 *
 * A sender encapsulates a fresh shared secret `ss` to the recipient's view
 * key, re-randomises the recipient's spend key `k_pub` with noise expanded
 * from `ss` (the stealth public key), and publishes the ciphertext together
 * with a one-byte view tag of `ss`. The recipient decapsulates the
 * ciphertext with its private view key and runs the same derivation.
 */
module Protocol {
  import opened Wrappers
  import opened Params
  import opened Kyber

  /** The noise vector: component i is sampled from `ss` with nonce i. */
  function NoiseVector(lib: Library, ss: SharedSecret): PolyVec {
    var s := seq<Poly>(K, i requires 0 <= i < K => lib.getNoiseEta1(ss, i as byte));
    s
  }

  /** A * s in Montgomery form: row i is the inner product of row i of A with s. */
  function MontProduct(lib: Library, a: Matrix, s: PolyVec): PolyVec {
    var p := seq<Poly>(K, i requires 0 <= i < K => lib.tomont(lib.basemulAccMontgomery(a[i], s)));
    p
  }

  /**
   * The stealth public key of `k_pub` under `ss`:
   * tobytes(reduce(A * s + pkpv)), where pkpv and the seed of A are unpacked
   * from `k_pub` and A is generated without transposition.
   */
  function StealthPubKey(lib: Library, ss: SharedSecret, kPub: PublicKey): StealthKey {
    var (pkpv, publicSeed) := lib.unpackPk(kPub);
    var p := MontProduct(lib, lib.genMatrix(publicSeed, 0), NoiseVector(lib, ss));
    lib.polyvecToBytes(lib.polyvecReduce(lib.polyvecAdd(p, pkpv)))
  }

  /**
   * calculate_stealth_pub_key: every local starts zeroed, the noise
   * components are sampled in order with a byte nonce that counts 0, 1, ...,
   * K - 1 (and never wraps), the product rows are filled in order, and the
   * sum and its reduction overwrite the product vector in place.
   */
  method CalculateStealthPubKey(lib: Library, ss: SharedSecret, kPub: PublicKey)
    returns (stealthPubKey: StealthKey)
    ensures stealthPubKey == StealthPubKey(lib, ss, kPub)
  {
    var pkpv: PolyVec := ZeroPolys;
    var skpv := new Poly[K](_ => ZeroPoly);
    var publicSeed: Seed := seq(SymBytes, _ => 0);
    pkpv, publicSeed := lib.unpackPk(kPub).0, lib.unpackPk(kPub).1;

    var a := new PolyVec[K](_ => ZeroPolys);
    var generated := lib.genMatrix(publicSeed, 0);
    forall i | 0 <= i < K {
      a[i] := generated[i];
    }
    assert a[..] == generated;

    SampleNoise(lib, ss, skpv);
    var pPoly := new Poly[K](_ => ZeroPoly);
    MultiplyRows(lib, a, skpv[..], pPoly);

    var sum := lib.polyvecAdd(pPoly[..], pkpv);
    forall i | 0 <= i < K {
      pPoly[i] := sum[i];
    }
    assert pPoly[..] == sum;
    var reduced := lib.polyvecReduce(pPoly[..]);
    forall i | 0 <= i < K {
      pPoly[i] := reduced[i];
    }
    assert pPoly[..] == reduced;
    stealthPubKey := lib.polyvecToBytes(pPoly[..]);
  }

  /** The sampling loop of calculate_stealth_pub_key: component i with nonce i, the nonce a byte counter. */
  method SampleNoise(lib: Library, ss: SharedSecret, skpv: array<Poly>)
    requires skpv.Length == K
    modifies skpv
    ensures skpv[..] == NoiseVector(lib, ss)
  {
    var nonce: byte := 0;
    for i := 0 to K
      invariant nonce as int == i
      invariant forall j :: 0 <= j < i ==> skpv[j] == lib.getNoiseEta1(ss, j as byte)
    {
      skpv[i] := lib.getNoiseEta1(ss, nonce);
      nonce := nonce + 1;
    }
  }

  /** The product loop of calculate_stealth_pub_key: row i of A times s, then into Montgomery form. */
  method MultiplyRows(lib: Library, a: array<PolyVec>, s: PolyVec, pPoly: array<Poly>)
    requires a.Length == K && pPoly.Length == K
    modifies pPoly
    ensures pPoly[..] == MontProduct(lib, a[..], s)
  {
    for i := 0 to K
      invariant forall j :: 0 <= j < i ==> pPoly[j] == MontProduct(lib, a[..], s)[j]
    {
      pPoly[i] := lib.basemulAccMontgomery(a[i], s);
      pPoly[i] := lib.tomont(pPoly[i]);
    }
  }

  /**
   * calculate_view_tag: the first byte of the 32-byte SHAKE128 output of
   * `ss`, or 0 for a NULL `ss`.
   */
  function CalculateViewTag(lib: Library, ss: Option<SharedSecret>): (tag: byte)
    ensures ss.None? ==> tag == 0
    ensures ss.Some? ==> forall w: nat {:trigger Shake128(lib, ss.value, w)} ::
      1 <= w ==> tag == Shake128(lib, ss.value, w)[0]
  {
    match ss
    case None => 0
    case Some(secret) =>
      var hash := Shake128(lib, secret, 32);
      forall w: nat | 1 <= w ensures hash[0] == Shake128(lib, secret, w)[0] {
        Shake128Prefix(lib, secret, 1, w);
        Shake128Prefix(lib, secret, 1, 32);
      }
      hash[0]
  }

  /** What the sender publishes and keeps. */
  datatype SenderResult = SenderResult(stealthPubKey: StealthKey, ephemeralPubKey: Ciphertext, viewTag: byte)

  /** The sender's outputs: all three come from the one secret the encapsulation yields. */
  function SenderOutputs(lib: Library, coins: Coins, vPub: PublicKey, kPub: PublicKey): SenderResult {
    var (ephemeralPubKey, ss) := lib.enc(vPub, coins);
    SenderResult(StealthPubKey(lib, ss, kPub), ephemeralPubKey, CalculateViewTag(lib, Some(ss)))
  }

  /** The recipient's stealth public key for a published ciphertext. */
  function RecipientStealthPubKey(lib: Library, kPub: PublicKey, ephemeralPubKey: Ciphertext, v: SecretKey): StealthKey {
    StealthPubKey(lib, lib.dec(ephemeralPubKey, v), kPub)
  }

  /**
   * sender_computes_stealth_pub_key_and_viewtag: with a NULL key it returns
   * at once and writes nothing; otherwise it writes the ciphertext, the
   * stealth public key and the view tag through its three out-parameters.
   */
  method SenderComputesStealthPubKeyAndViewTag(
    lib: Library, coins: Coins,
    stealthPubKey: array<byte>, ephemeralPubKey: array<byte>, viewTag: array<byte>,
    vPub: array?<byte>, kPub: array?<byte>)
    requires stealthPubKey.Length == StealthAddressBytes(K)
    requires ephemeralPubKey.Length == CiphertextBytes(K)
    requires viewTag.Length == 1
    requires vPub != null ==> vPub.Length == PublicKeyBytes(K)
    requires kPub != null ==> kPub.Length == PublicKeyBytes(K)
    requires stealthPubKey != ephemeralPubKey && stealthPubKey != viewTag && ephemeralPubKey != viewTag
    requires vPub !in {stealthPubKey, ephemeralPubKey, viewTag}
    requires kPub !in {stealthPubKey, ephemeralPubKey, viewTag}
    modifies stealthPubKey, ephemeralPubKey, viewTag
    ensures vPub == null || kPub == null ==>
      unchanged(stealthPubKey) && unchanged(ephemeralPubKey) && unchanged(viewTag)
    ensures vPub != null && kPub != null ==>
      var r := SenderOutputs(lib, coins, vPub[..], kPub[..]);
      stealthPubKey[..] == r.stealthPubKey && ephemeralPubKey[..] == r.ephemeralPubKey && viewTag[0] == r.viewTag
  {
    if vPub == null || kPub == null {
      return;
    }
    var vBytes, kBytes := vPub[..], kPub[..];
    var result := lib.enc(vBytes, coins);
    var ct, ss := result.0, result.1;
    forall i | 0 <= i < ephemeralPubKey.Length {
      ephemeralPubKey[i] := ct[i];
    }
    var key := CalculateStealthPubKey(lib, ss, kBytes);
    forall i | 0 <= i < stealthPubKey.Length {
      stealthPubKey[i] := key[i];
    }
    viewTag[0] := CalculateViewTag(lib, Some(ss));
    assert ephemeralPubKey[..] == ct && stealthPubKey[..] == key;
    assert vPub[..] == vBytes && kPub[..] == kBytes;
  }

  /** recipient_computes_stealth_pub_key: decapsulate, then derive. */
  method RecipientComputesStealthPubKey(
    lib: Library, stealthPubKey: array<byte>,
    kPub: PublicKey, ephemeralPubKey: Ciphertext, v: SecretKey)
    requires stealthPubKey.Length == StealthAddressBytes(K)
    modifies stealthPubKey
    ensures stealthPubKey[..] == RecipientStealthPubKey(lib, kPub, ephemeralPubKey, v)
  {
    var ss := lib.dec(ephemeralPubKey, v);
    var key := CalculateStealthPubKey(lib, ss, kPub);
    forall i | 0 <= i < stealthPubKey.Length {
      stealthPubKey[i] := key[i];
    }
    assert stealthPubKey[..] == key;
  }

  /**
   * The protocol's correctness: if decapsulation returns the encapsulated
   * secret, the recipient derives the sender's stealth public key and
   * recomputes the sender's view tag from the published ciphertext.
   */
  lemma SenderRecipientAgree(lib: Library, viewKeyCoins: Coins, encCoins: Coins, kPub: PublicKey)
    requires DecapsulationCorrect(lib)
    ensures var (vPub, vPriv) := lib.keypair(viewKeyCoins);
            var sent := SenderOutputs(lib, encCoins, vPub, kPub);
            var received := lib.dec(sent.ephemeralPubKey, vPriv);
            RecipientStealthPubKey(lib, kPub, sent.ephemeralPubKey, vPriv) == sent.stealthPubKey
            && CalculateViewTag(lib, Some(received)) == sent.viewTag
  {
    var (vPub, vPriv) := lib.keypair(viewKeyCoins);
    assert lib.dec(lib.enc(vPub, encCoins).0, vPriv) == lib.enc(vPub, encCoins).1;
  }

  /**
   * The derivation reads nothing but `ss` and `k_pub`, and of `ss` only its
   * noise vector: two secrets with the same noise give the same key. It
   * holds by congruence, since StealthPubKey uses `ss` only through
   * NoiseVector; it records that the derivation has no other path from the
   * secret to the key.
   */
  lemma StealthPubKeyDependsOnNoiseOnly(lib: Library, ss1: SharedSecret, ss2: SharedSecret, kPub: PublicKey)
    requires NoiseVector(lib, ss1) == NoiseVector(lib, ss2)
    ensures StealthPubKey(lib, ss1, kPub) == StealthPubKey(lib, ss2, kPub)
  {
  }
}
