/**
 * One trial of each benchmark's `run`: generate the recipient's key pairs,
 * build the registry, optionally shuffle it, and scan it. The clock
 * readings around the scans are left to module Timing; what a trial
 * yields here is what each scan derives.
 */
module Trials {
  import opened Wrappers
  import opened Kyber
  import opened Protocol
  import opened Registry
  import opened Scan

  /** The randomness of one trial: both recipient key pairs, the registry build and the shuffle. */
  datatype TrialCoins = TrialCoins(spendKey: Coins, viewKey: Coins, build: BuildCoins, rand: Draws)

  function SpendPub(lib: Library, coins: TrialCoins): PublicKey {
    lib.keypair(coins.spendKey).0
  }

  function ViewPub(lib: Library, coins: TrialCoins): PublicKey {
    lib.keypair(coins.viewKey).0
  }

  function ViewPriv(lib: Library, coins: TrialCoins): SecretKey {
    lib.keypair(coins.viewKey).1
  }

  /** The stealth public key the sender of the last (true) entry computes. */
  function SenderKey(lib: Library, coins: TrialCoins, n: nat): StealthKey
    requires n >= 1
  {
    SenderOutputs(lib, coins.build.enc(n - 1), ViewPub(lib, coins), SpendPub(lib, coins)).stealthPubKey
  }

  /**
   * No decoy entry passes the full-tag filter: the ss-hash of what the
   * recipient decapsulates from a decoy never equals the decoy's own tag.
   * A hash collision would break this; it is a hypothesis, never a fact.
   */
  ghost predicate NoFalseFullMatch(lib: Library, ssHash: SsHash, coins: TrialCoins, n: nat) {
    forall i :: 0 <= i < n - 1 ==>
      var (ct, ss) := TaggedEncapsulation(lib, coins.build, n, ViewPub(lib, coins), i);
      !FullTagHit(lib, ssHash, ViewPriv(lib, coins), ct, ssHash(ss))
  }

  /**
   * Byte 0 of calculate_ss_hash agrees with calculate_view_tag. The
   * one-byte scan of bench/bench_view_tag.c compares the two; nothing in
   * the code makes them agree, so this too is a hypothesis.
   */
  ghost predicate TagBytesAgree(lib: Library, ssHash: SsHash) {
    forall ss: SharedSecret :: ssHash(ss)[0] == CalculateViewTag(lib, Some(ss))
  }

  /** A pair of two parallel arrays is still present after a permutation of the pairs. */
  lemma PairSurvives<A, B>(a0: seq<A>, b0: seq<B>, a: seq<A>, b: seq<B>, t: nat)
    requires |a0| == |b0| && |a| == |b| && t < |a0|
    requires multiset(Zip(a, b)) == multiset(Zip(a0, b0))
    ensures exists k :: 0 <= k < |a| && a[k] == a0[t] && b[k] == b0[t]
  {
    assert Zip(a0, b0)[t] in multiset(Zip(a0, b0));
    var k :| 0 <= k < |a| && Zip(a, b)[k] == (a0[t], b0[t]);
  }

  /** Every pair present after a permutation of the pairs was present before. */
  lemma PairOrigin<A, B>(a0: seq<A>, b0: seq<B>, a: seq<A>, b: seq<B>, k: nat)
    requires |a0| == |b0| && |a| == |b| && k < |a|
    requires multiset(Zip(a, b)) == multiset(Zip(a0, b0))
    ensures exists t :: 0 <= t < |a0| && a[k] == a0[t] && b[k] == b0[t]
  {
    assert Zip(a, b)[k] in multiset(Zip(a, b));
    var t :| 0 <= t < |a0| && Zip(a0, b0)[t] == (a[k], b[k]);
  }

  /**
   * In a permuted registry whose entry t passes the full-tag filter and is
   * the only one that does, the full-tag scan stops at that entry.
   */
  lemma FullScanFindsEntry(lib: Library, ssHash: SsHash, vPriv: SecretKey,
                           cts0: seq<Ciphertext>, tags0: seq<Digest>, cts: seq<Ciphertext>, tags: seq<Digest>, t: nat)
    requires |cts0| == |tags0| && |cts| == |tags| && t < |cts0|
    requires multiset(Zip(cts, tags)) == multiset(Zip(cts0, tags0))
    requires FullTagHit(lib, ssHash, vPriv, cts0[t], tags0[t])
    ensures FirstFullHit(lib, ssHash, vPriv, cts, tags, 0).Some?
    ensures (forall i :: 0 <= i < |cts0| && i != t ==> !FullTagHit(lib, ssHash, vPriv, cts0[i], tags0[i])) ==>
      cts[FirstFullHit(lib, ssHash, vPriv, cts, tags, 0).value] == cts0[t]
  {
    PairSurvives(cts0, tags0, cts, tags, t);
    var first := FirstFullHit(lib, ssHash, vPriv, cts, tags, 0).value;
    PairOrigin(cts0, tags0, cts, tags, first);
  }

  /**
   * The ciphertexts a trial scans: the built registry's, shuffled when the
   * trial shuffles.
   */
  function TrialCiphertexts(lib: Library, coins: TrialCoins, n: nat, shuffle: bool): (cts: seq<Ciphertext>)
    ensures |cts| == n
  {
    var built := TaggedCiphertexts(lib, coins.build, n, ViewPub(lib, coins));
    if shuffle then Shuffle(built, coins.rand) else built
  }

  /** The tags a trial scans, shuffled by the same draws as the ciphertexts. */
  function TrialTags(lib: Library, ssHash: SsHash, coins: TrialCoins, n: nat, shuffle: bool): (tags: seq<Digest>)
    ensures |tags| == n
  {
    var built := TaggedTags(lib, ssHash, coins.build, n, ViewPub(lib, coins));
    if shuffle then Shuffle(built, coins.rand) else built
  }

  /** What one trial of bench/bench_view_tag.c derives in each of its three scans. */
  datatype ViewTagOutcome = ViewTagOutcome(noTag: seq<Match>, oneByte: seq<Match>, processed: nat, fullTag: Option<Match>)

  /**
   * One trial of `run` in bench/bench_view_tag.c. The scan without a tag
   * derives all n entries; the one-byte and full-tag scans derive only
   * derivations the scan without a tag also makes; the full-tag scan
   * stops after its one match. When decapsulation is correct, the true
   * entry always passes the full-tag filter; with no false full match the
   * scan derives the sender's stealth key, and without the shuffle it
   * reaches it only after all n entries. When in addition the tag bytes
   * agree, the one-byte scan derives the sender's key too.
   */
  method ViewTagTrial(lib: Library, ssHash: SsHash, coins: TrialCoins, n: int, shuffle: bool)
    returns (outcome: ViewTagOutcome)
    requires n >= 1
    ensures |outcome.noTag| == n
    ensures var cts := TrialCiphertexts(lib, coins, n, shuffle);
      forall i :: 0 <= i < n ==> outcome.noTag[i] == Derivation(lib, SpendPub(lib, coins), ViewPriv(lib, coins), i, cts[i])
    ensures outcome.oneByte == ByteFiltered(lib, SpendPub(lib, coins), ViewPriv(lib, coins),
      TrialCiphertexts(lib, coins, n, shuffle), TrialTags(lib, ssHash, coins, n, shuffle), FirstByte)
    ensures FullScanResult(lib, ssHash, SpendPub(lib, coins), ViewPriv(lib, coins),
      TrialCiphertexts(lib, coins, n, shuffle), TrialTags(lib, ssHash, coins, n, shuffle),
      outcome.processed, outcome.fullTag)
    ensures forall i :: 0 <= i < n ==> outcome.noTag[i].index == i
    ensures forall m :: m in outcome.oneByte ==> m in outcome.noTag
    ensures IndicesIncreasing(outcome.oneByte)
    ensures outcome.fullTag.None? ==> outcome.processed == n
    ensures outcome.fullTag.Some? ==>
      outcome.fullTag.value in outcome.noTag && outcome.processed == outcome.fullTag.value.index + 1
    ensures DecapsulationCorrect(lib) ==> outcome.fullTag.Some?
    ensures DecapsulationCorrect(lib) && NoFalseFullMatch(lib, ssHash, coins, n) ==>
      outcome.fullTag.Some? && outcome.fullTag.value.stealthPubKey == SenderKey(lib, coins, n)
    ensures DecapsulationCorrect(lib) && NoFalseFullMatch(lib, ssHash, coins, n) && !shuffle ==>
      outcome.processed == n
    ensures DecapsulationCorrect(lib) && TagBytesAgree(lib, ssHash) ==>
      exists m :: m in outcome.oneByte && m.stealthPubKey == SenderKey(lib, coins, n)
  {
    var (kPub, kPriv) := lib.keypair(coins.spendKey);
    var (vPub, vPriv) := lib.keypair(coins.viewKey);
    var epkr, viewTags := BuildTaggedRegistry(lib, ssHash, coins.build, n, vPub);
    ghost var cts0, tags0 := epkr[..], viewTags[..];
    if shuffle {
      ShuffleRegisters(epkr, viewTags, coins.rand);
      ShuffleKeepsPairs(cts0, tags0, coins.rand);
    }
    ghost var cts, tags := epkr[..], viewTags[..];
    assert cts == TrialCiphertexts(lib, coins, n, shuffle) && tags == TrialTags(lib, ssHash, coins, n, shuffle);

    var noTag := ScanNoTag(lib, kPub, vPriv, epkr);
    var oneByte := ScanOneByteTag(lib, kPub, vPriv, epkr, viewTags, FirstByte);
    var processed, fullTag := ScanFullTag(lib, ssHash, kPub, vPriv, epkr, viewTags);
    outcome := ViewTagOutcome(noTag, oneByte, processed, fullTag);
    assert kPub == SpendPub(lib, coins) && vPriv == ViewPriv(lib, coins);
    assert epkr[..] == cts && viewTags[..] == tags;
    ViewTagScans(lib, ssHash, coins, n, shuffle, cts0, tags0, cts, tags, outcome);
  }

  /**
   * What the three scans of one trial of bench/bench_view_tag.c guarantee,
   * given what each scan computes over the (possibly shuffled) registry.
   */
  lemma ViewTagScans(lib: Library, ssHash: SsHash, coins: TrialCoins, n: int, shuffle: bool,
                     cts0: seq<Ciphertext>, tags0: seq<Digest>, cts: seq<Ciphertext>, tags: seq<Digest>,
                     outcome: ViewTagOutcome)
    requires n >= 1 && |cts| == |tags| == n
    requires cts0 == TaggedCiphertexts(lib, coins.build, n, ViewPub(lib, coins))
    requires tags0 == TaggedTags(lib, ssHash, coins.build, n, ViewPub(lib, coins))
    requires multiset(Zip(cts, tags)) == multiset(Zip(cts0, tags0))
    requires !shuffle ==> cts == cts0 && tags == tags0
    requires |outcome.noTag| == n
    requires forall i :: 0 <= i < n ==>
      outcome.noTag[i] == Derivation(lib, SpendPub(lib, coins), ViewPriv(lib, coins), i, cts[i])
    requires outcome.oneByte == ByteFiltered(lib, SpendPub(lib, coins), ViewPriv(lib, coins), cts, tags, FirstByte)
    requires FullScanResult(lib, ssHash, SpendPub(lib, coins), ViewPriv(lib, coins), cts, tags, outcome.processed, outcome.fullTag)
    ensures forall i :: 0 <= i < n ==> outcome.noTag[i].index == i
    ensures forall m :: m in outcome.oneByte ==> m in outcome.noTag
    ensures IndicesIncreasing(outcome.oneByte)
    ensures outcome.fullTag.Some? ==>
      outcome.fullTag.value in outcome.noTag && outcome.processed == outcome.fullTag.value.index + 1
    ensures DecapsulationCorrect(lib) ==> outcome.fullTag.Some?
    ensures DecapsulationCorrect(lib) && NoFalseFullMatch(lib, ssHash, coins, n) ==>
      outcome.fullTag.Some? && outcome.fullTag.value.stealthPubKey == SenderKey(lib, coins, n)
    ensures DecapsulationCorrect(lib) && NoFalseFullMatch(lib, ssHash, coins, n) && !shuffle ==>
      outcome.processed == n
    ensures DecapsulationCorrect(lib) && TagBytesAgree(lib, ssHash) ==>
      exists m :: m in outcome.oneByte && m.stealthPubKey == SenderKey(lib, coins, n)
  {
    var kPub, vPriv := SpendPub(lib, coins), ViewPriv(lib, coins);
    ByteFilteredWithinAll(lib, kPub, vPriv, cts, tags, FirstByte, outcome.noTag);
    ByteFilteredExact(lib, kPub, vPriv, cts, tags, FirstByte);
    TrueEntryFound(lib, ssHash, coins, n, cts0, tags0, cts, tags);
    OneByteFindsTrueEntry(lib, ssHash, coins, n, cts0, tags0, cts, tags);
    var first := FirstFullHit(lib, ssHash, vPriv, cts, tags, 0);
    if first.Some? {
      assert outcome.noTag[first.value] == outcome.fullTag.value;
      if DecapsulationCorrect(lib) && NoFalseFullMatch(lib, ssHash, coins, n) && !shuffle {
        OnlyTrueEntryMatches(lib, ssHash, coins, n, cts0, tags0);
      }
    }
  }

  /** Byte 0 of a stored hash, the byte the one-byte scan of bench/bench_view_tag.c compares. */
  function FirstByte(d: Digest): byte {
    d[0]
  }

  /** Every derivation of the one-byte scan is one the scan without a tag makes as well. */
  lemma ByteFilteredWithinAll<T>(lib: Library, kPub: PublicKey, vPriv: SecretKey,
                                 cts: seq<Ciphertext>, tags: seq<T>, storedByte: T -> byte, all: seq<Match>)
    requires |cts| == |tags| == |all|
    requires forall i :: 0 <= i < |cts| ==> all[i] == Derivation(lib, kPub, vPriv, i, cts[i])
    ensures forall m :: m in ByteFiltered(lib, kPub, vPriv, cts, tags, storedByte) ==> m in all
  {
    ByteFilteredExact(lib, kPub, vPriv, cts, tags, storedByte);
    forall m | m in ByteFiltered(lib, kPub, vPriv, cts, tags, storedByte) ensures m in all {
      assert all[m.index] == m;
    }
  }

  /**
   * When decapsulation is correct and the tag bytes agree, the one-byte
   * scan of a permuted tagged registry derives the sender's key.
   */
  lemma OneByteFindsTrueEntry(lib: Library, ssHash: SsHash, coins: TrialCoins, n: int,
                              cts0: seq<Ciphertext>, tags0: seq<Digest>, cts: seq<Ciphertext>, tags: seq<Digest>)
    requires n >= 1 && |cts0| == |tags0| == n && |cts| == |tags|
    requires forall i :: 0 <= i < n ==>
      var (ct, ss) := TaggedEncapsulation(lib, coins.build, n, ViewPub(lib, coins), i);
      cts0[i] == ct && tags0[i] == ssHash(ss)
    requires multiset(Zip(cts, tags)) == multiset(Zip(cts0, tags0))
    ensures DecapsulationCorrect(lib) && TagBytesAgree(lib, ssHash) ==>
      exists m :: m in ByteFiltered(lib, SpendPub(lib, coins), ViewPriv(lib, coins), cts, tags, FirstByte)
                  && m.stealthPubKey == SenderKey(lib, coins, n)
  {
    if DecapsulationCorrect(lib) && TagBytesAgree(lib, ssHash) {
      var t := n - 1;
      var kPub, vPriv := SpendPub(lib, coins), ViewPriv(lib, coins);
      TrueEntryFound(lib, ssHash, coins, n, cts0, tags0, cts, tags);
      PairSurvives(cts0, tags0, cts, tags, t);
      var k :| 0 <= k < |cts| && cts[k] == cts0[t] && tags[k] == tags0[t];
      var m := Derivation(lib, kPub, vPriv, k, cts[k]);
      assert ssHash(lib.dec(cts[k], vPriv))[0] == CalculateViewTag(lib, Some(lib.dec(cts[k], vPriv)));
      assert IsByteDerivation(lib, kPub, vPriv, cts, tags, FirstByte, m);
      ByteFilteredExact(lib, kPub, vPriv, cts, tags, FirstByte);
    }
  }

  /**
   * The facts about the true entry (entry n - 1 of the built registry) that
   * both full-tag trials rest on: under correct decapsulation it passes the
   * full-tag filter and its derivation is the sender's key; with no false
   * full match the full-tag scan stops exactly there.
   */
  lemma TrueEntryFound(lib: Library, ssHash: SsHash, coins: TrialCoins, n: int,
                       cts0: seq<Ciphertext>, tags0: seq<Digest>, cts: seq<Ciphertext>, tags: seq<Digest>)
    requires n >= 1 && |cts0| == |tags0| == n && |cts| == |tags|
    requires forall i :: 0 <= i < n ==>
      var (ct, ss) := TaggedEncapsulation(lib, coins.build, n, ViewPub(lib, coins), i);
      cts0[i] == ct && tags0[i] == ssHash(ss)
    requires multiset(Zip(cts, tags)) == multiset(Zip(cts0, tags0))
    ensures DecapsulationCorrect(lib) ==>
      RecipientStealthPubKey(lib, SpendPub(lib, coins), cts0[n - 1], ViewPriv(lib, coins)) == SenderKey(lib, coins, n)
      && FullTagHit(lib, ssHash, ViewPriv(lib, coins), cts0[n - 1], tags0[n - 1])
      && FirstFullHit(lib, ssHash, ViewPriv(lib, coins), cts, tags, 0).Some?
    ensures DecapsulationCorrect(lib) && NoFalseFullMatch(lib, ssHash, coins, n) ==>
      cts[FirstFullHit(lib, ssHash, ViewPriv(lib, coins), cts, tags, 0).value] == cts0[n - 1]
  {
    if DecapsulationCorrect(lib) {
      var t := n - 1;
      var e := TaggedEncapsulation(lib, coins.build, n, ViewPub(lib, coins), t);
      assert cts0[t] == e.0 && tags0[t] == ssHash(e.1);
      TrueEntryHits(lib, ssHash, coins, n);
      FullScanFindsEntry(lib, ssHash, ViewPriv(lib, coins), cts0, tags0, cts, tags, t);
      if NoFalseFullMatch(lib, ssHash, coins, n) {
        OnlyTrueEntryMatches(lib, ssHash, coins, n, cts0, tags0);
      }
    }
  }

  /**
   * Under correct decapsulation, the recipient recovers the secret of entry
   * n - 1, so that entry passes the full-tag filter and its derivation is
   * the sender's key.
   */
  lemma TrueEntryHits(lib: Library, ssHash: SsHash, coins: TrialCoins, n: int)
    requires n >= 1 && DecapsulationCorrect(lib)
    ensures var e := TaggedEncapsulation(lib, coins.build, n, ViewPub(lib, coins), n - 1);
      FullTagHit(lib, ssHash, ViewPriv(lib, coins), e.0, ssHash(e.1))
      && RecipientStealthPubKey(lib, SpendPub(lib, coins), e.0, ViewPriv(lib, coins)) == SenderKey(lib, coins, n)
  {
    var e := TaggedEncapsulation(lib, coins.build, n, ViewPub(lib, coins), n - 1);
    assert e == lib.enc(ViewPub(lib, coins), coins.build.enc(n - 1));
    SenderRecipientAgree(lib, coins.viewKey, coins.build.enc(n - 1), SpendPub(lib, coins));
  }

  /** With no false full match, entry n - 1 is the only entry of the built registry that passes the full-tag filter. */
  lemma OnlyTrueEntryMatches(lib: Library, ssHash: SsHash, coins: TrialCoins, n: int,
                             cts0: seq<Ciphertext>, tags0: seq<Digest>)
    requires n >= 1 && |cts0| == |tags0| == n
    requires forall i :: 0 <= i < n ==>
      var (ct, ss) := TaggedEncapsulation(lib, coins.build, n, ViewPub(lib, coins), i);
      cts0[i] == ct && tags0[i] == ssHash(ss)
    requires NoFalseFullMatch(lib, ssHash, coins, n)
    ensures forall i :: 0 <= i < n - 1 ==> !FullTagHit(lib, ssHash, ViewPriv(lib, coins), cts0[i], tags0[i])
  {
    forall i | 0 <= i < n - 1
      ensures !FullTagHit(lib, ssHash, ViewPriv(lib, coins), cts0[i], tags0[i])
    {
      var (ct, ss) := TaggedEncapsulation(lib, coins.build, n, ViewPub(lib, coins), i);
      assert cts0[i] == ct && tags0[i] == ssHash(ss);
    }
  }

  /**
   * One trial of `run` in bench/bench_shuffle.c: the registry is always
   * shuffled, then scanned with the full tag. The guarantees are those of
   * the full-tag scan of ViewTagTrial.
   */
  method ShuffleTrial(lib: Library, ssHash: SsHash, coins: TrialCoins, n: int)
    returns (processed: nat, fullTag: Option<Match>)
    requires n >= 1
    ensures FullScanResult(lib, ssHash, SpendPub(lib, coins), ViewPriv(lib, coins),
      TrialCiphertexts(lib, coins, n, true), TrialTags(lib, ssHash, coins, n, true), processed, fullTag)
    ensures processed <= n
    ensures fullTag.None? ==> processed == n
    ensures fullTag.Some? ==>
      fullTag.value.index < n && processed == fullTag.value.index + 1
    ensures DecapsulationCorrect(lib) ==> fullTag.Some?
    ensures DecapsulationCorrect(lib) && NoFalseFullMatch(lib, ssHash, coins, n) ==>
      fullTag.Some? && fullTag.value.stealthPubKey == SenderKey(lib, coins, n)
  {
    var (kPub, kPriv) := lib.keypair(coins.spendKey);
    var (vPub, vPriv) := lib.keypair(coins.viewKey);
    var epkr, viewTags := BuildTaggedRegistry(lib, ssHash, coins.build, n, vPub);
    ghost var cts0, tags0 := epkr[..], viewTags[..];
    ShuffleRegisters(epkr, viewTags, coins.rand);
    ShuffleKeepsPairs(cts0, tags0, coins.rand);
    assert epkr[..] == TrialCiphertexts(lib, coins, n, true) && viewTags[..] == TrialTags(lib, ssHash, coins, n, true);
    processed, fullTag := ScanFullTag(lib, ssHash, kPub, vPriv, epkr, viewTags);
    TrueEntryFound(lib, ssHash, coins, n, cts0, tags0, epkr[..], viewTags[..]);
  }

  /**
   * One trial of `run` in bench/bench.c: a registry of n decoys with one
   * tag byte each, scanned with the one-byte filter. It derives exactly the
   * entries whose recomputed byte equals the stored one, each once, in
   * order, having visited all n.
   */
  method OneByteTrial(lib: Library, coins: TrialCoins, n: nat) returns (derived: seq<Match>)
    ensures forall m :: m in derived <==>
      m.index < n
      && var (ct, ss) := DecoyEncapsulation(lib, coins.build, m.index);
         ByteTagHit(lib, ViewPriv(lib, coins), ct, CalculateViewTag(lib, Some(ss)))
         && m == Derivation(lib, SpendPub(lib, coins), ViewPriv(lib, coins), m.index, ct)
    ensures IndicesIncreasing(derived)
  {
    var (kPub, kPriv) := lib.keypair(coins.spendKey);
    var (vPub, vPriv) := lib.keypair(coins.viewKey);
    var epkr, viewTags := BuildByteTaggedRegistry(lib, coins.build, n);
    derived := ScanOneByteTag(lib, kPub, vPriv, epkr, viewTags, (b: byte) => b);
    ByteFilteredExact(lib, kPub, vPriv, epkr[..], viewTags[..], (b: byte) => b);
  }
}
