/**
 * The recipient's scans over the registry in the benchmarks' `run`: for
 * each entry, decapsulate its ciphertext with the private view key, and
 * derive the stealth public key (calculate_stealth_pub_key) either for
 * every entry, or only where a one-byte view tag matches, or for the first
 * entry whose full 32-byte tag matches.
 */
module Scan {
  import opened Wrappers
  import opened Kyber
  import opened Protocol
  import opened Registry

  /** One call of calculate_stealth_pub_key during a scan: the entry's index and the key derived. */
  datatype Match = Match(index: nat, stealthPubKey: StealthKey)

  /** The derivation a scan performs for entry i with ciphertext ct. */
  function Derivation(lib: Library, kPub: PublicKey, vPriv: SecretKey, i: nat, ct: Ciphertext): Match {
    Match(i, RecipientStealthPubKey(lib, kPub, ct, vPriv))
  }

  /**
   * The scan without a view tag (bench/bench_view_tag.c): every entry is
   * decapsulated and derived, in order.
   */
  method ScanNoTag(lib: Library, kPub: PublicKey, vPriv: SecretKey, epkr: array<Ciphertext>)
    returns (derived: seq<Match>)
    ensures |derived| == epkr.Length
    ensures forall i :: 0 <= i < epkr.Length ==> derived[i] == Derivation(lib, kPub, vPriv, i, epkr[i])
  {
    derived := [];
    for i := 0 to epkr.Length
      invariant |derived| == i
      invariant forall k :: 0 <= k < i ==> derived[k] == Derivation(lib, kPub, vPriv, k, epkr[k])
    {
      var ss := lib.dec(epkr[i], vPriv);
      var stealthPubKey := CalculateStealthPubKey(lib, ss, kPub);
      derived := derived + [Match(i, stealthPubKey)];
    }
  }

  /** The one-byte filter: the view tag recomputed from the decapsulated secret equals the stored byte. */
  predicate ByteTagHit(lib: Library, vPriv: SecretKey, ct: Ciphertext, stored: byte) {
    CalculateViewTag(lib, Some(lib.dec(ct, vPriv))) == stored
  }

  /**
   * The derivations of the one-byte scan over the entries (cts[i], tags[i]),
   * where `storedByte` reads the byte a stored tag is compared on.
   */
  function ByteFiltered<T>(lib: Library, kPub: PublicKey, vPriv: SecretKey,
                           cts: seq<Ciphertext>, tags: seq<T>, storedByte: T -> byte): seq<Match>
    requires |cts| == |tags|
  {
    if |cts| == 0 then []
    else
      var i := |cts| - 1;
      ByteFiltered(lib, kPub, vPriv, cts[..i], tags[..i], storedByte)
        + (if ByteTagHit(lib, vPriv, cts[i], storedByte(tags[i])) then [Derivation(lib, kPub, vPriv, i, cts[i])] else [])
  }

  /** m is the derivation of an entry whose byte matches. */
  predicate IsByteDerivation<T>(lib: Library, kPub: PublicKey, vPriv: SecretKey,
                                cts: seq<Ciphertext>, tags: seq<T>, storedByte: T -> byte, m: Match)
    requires |cts| == |tags|
  {
    m.index < |cts| && ByteTagHit(lib, vPriv, cts[m.index], storedByte(tags[m.index]))
    && m == Derivation(lib, kPub, vPriv, m.index, cts[m.index])
  }

  /** Derivations in strictly increasing registry order: no entry twice, none out of order. */
  predicate IndicesIncreasing(r: seq<Match>) {
    forall a, b :: 0 <= a < b < |r| ==> r[a].index < r[b].index
  }

  /**
   * The one-byte scan derives exactly for the entries whose byte matches,
   * each once and in registry order.
   */
  lemma {:induction false} ByteFilteredExact<T>(lib: Library, kPub: PublicKey, vPriv: SecretKey,
                                                cts: seq<Ciphertext>, tags: seq<T>, storedByte: T -> byte)
    requires |cts| == |tags|
    ensures forall m :: m in ByteFiltered(lib, kPub, vPriv, cts, tags, storedByte) <==>
      IsByteDerivation(lib, kPub, vPriv, cts, tags, storedByte, m)
    ensures IndicesIncreasing(ByteFiltered(lib, kPub, vPriv, cts, tags, storedByte))
  {
    if |cts| > 0 {
      var i := |cts| - 1;
      var prefix := ByteFiltered(lib, kPub, vPriv, cts[..i], tags[..i], storedByte);
      ByteFilteredExact(lib, kPub, vPriv, cts[..i], tags[..i], storedByte);
      forall m | m in prefix
        ensures m.index < i && IsByteDerivation(lib, kPub, vPriv, cts, tags, storedByte, m)
      {
        assert IsByteDerivation(lib, kPub, vPriv, cts[..i], tags[..i], storedByte, m);
      }
      forall m | IsByteDerivation(lib, kPub, vPriv, cts, tags, storedByte, m) && m.index < i
        ensures m in prefix
      {
        assert IsByteDerivation(lib, kPub, vPriv, cts[..i], tags[..i], storedByte, m);
      }
      var r := ByteFiltered(lib, kPub, vPriv, cts, tags, storedByte);
      var tail := if ByteTagHit(lib, vPriv, cts[i], storedByte(tags[i])) then [Derivation(lib, kPub, vPriv, i, cts[i])] else [];
      assert r == prefix + tail;
      forall a, b | 0 <= a < b < |r| ensures r[a].index < r[b].index {
        if b >= |prefix| {
          assert r[a] in prefix && r[b] == Derivation(lib, kPub, vPriv, i, cts[i]);
        } else {
          assert r[a] == prefix[a] && r[b] == prefix[b];
          assert IndicesIncreasing(prefix);
        }
      }
    }
  }

  /** When every entry passes the filter, the one-byte scan derives what the scan without a tag derives. */
  lemma {:induction false} ByteFilteredAllHits<T>(lib: Library, kPub: PublicKey, vPriv: SecretKey,
                                                  cts: seq<Ciphertext>, tags: seq<T>, storedByte: T -> byte)
    requires |cts| == |tags|
    requires forall i :: 0 <= i < |cts| ==> ByteTagHit(lib, vPriv, cts[i], storedByte(tags[i]))
    ensures var r := ByteFiltered(lib, kPub, vPriv, cts, tags, storedByte);
      |r| == |cts| && forall i :: 0 <= i < |cts| ==> r[i] == Derivation(lib, kPub, vPriv, i, cts[i])
  {
    if |cts| > 0 {
      var i := |cts| - 1;
      ByteFilteredAllHits(lib, kPub, vPriv, cts[..i], tags[..i], storedByte);
    }
  }

  /** The stealth keys a list of derivations yields, counted with multiplicity. */
  function Keys(ms: seq<Match>): multiset<StealthKey> {
    if |ms| == 0 then multiset{} else Keys(ms[..|ms| - 1]) + multiset{ms[|ms| - 1].stealthPubKey}
  }

  /** The stealth key the one-byte filter lets through from one (ciphertext, tag) entry, if any. */
  function EntryKey<T>(lib: Library, kPub: PublicKey, vPriv: SecretKey,
                       entry: (Ciphertext, T), storedByte: T -> byte): multiset<StealthKey>
  {
    if ByteTagHit(lib, vPriv, entry.0, storedByte(entry.1))
    then multiset{RecipientStealthPubKey(lib, kPub, entry.0, vPriv)}
    else multiset{}
  }

  /** The stealth keys the one-byte filter lets through from a list of (ciphertext, tag) entries. */
  function EntryKeys<T>(lib: Library, kPub: PublicKey, vPriv: SecretKey,
                        entries: seq<(Ciphertext, T)>, storedByte: T -> byte): multiset<StealthKey>
  {
    if |entries| == 0 then multiset{}
    else
      EntryKeys(lib, kPub, vPriv, entries[..|entries| - 1], storedByte)
        + EntryKey(lib, kPub, vPriv, entries[|entries| - 1], storedByte)
  }

  lemma {:induction false} EntryKeysConcat<T>(lib: Library, kPub: PublicKey, vPriv: SecretKey,
                                              p: seq<(Ciphertext, T)>, q: seq<(Ciphertext, T)>, storedByte: T -> byte)
    ensures EntryKeys(lib, kPub, vPriv, p + q, storedByte)
         == EntryKeys(lib, kPub, vPriv, p, storedByte) + EntryKeys(lib, kPub, vPriv, q, storedByte)
  {
    if |q| == 0 {
      assert p + q == p;
    } else {
      var front, x := q[..|q| - 1], q[|q| - 1];
      EntryKeysConcat(lib, kPub, vPriv, p, front, storedByte);
      assert (p + q)[..|p + q| - 1] == p + front && (p + q)[|p + q| - 1] == x;
    }
  }

  /** The keys the filter lets through depend only on which entries there are, not on their order. */
  lemma {:induction false} EntryKeysPermutation<T>(lib: Library, kPub: PublicKey, vPriv: SecretKey,
                                                   p: seq<(Ciphertext, T)>, q: seq<(Ciphertext, T)>, storedByte: T -> byte)
    requires multiset(p) == multiset(q)
    ensures EntryKeys(lib, kPub, vPriv, p, storedByte) == EntryKeys(lib, kPub, vPriv, q, storedByte)
    decreases |p|
  {
    if |p| == 0 {
      assert |q| == |multiset(q)| == 0;
    } else {
      var x, rest := p[|p| - 1], p[..|p| - 1];
      assert p == rest + [x];
      assert x in multiset(q);
      var k :| 0 <= k < |q| && q[k] == x;
      var before, after := q[..k], q[k + 1..];
      assert q == before + [x] + after;
      RemoveOne(p, q, k);
      EntryKeysPermutation(lib, kPub, vPriv, rest, before + after, storedByte);
      EntryKeysConcat(lib, kPub, vPriv, before, after, storedByte);
      EntryKeysConcat(lib, kPub, vPriv, before, [x], storedByte);
      EntryKeysConcat(lib, kPub, vPriv, before + [x], after, storedByte);
      EntryKeysConcat(lib, kPub, vPriv, rest, [x], storedByte);
    }
  }

  /** Taking the last element off one of two permutations of each other, and one equal element off the other, leaves permutations. */
  lemma RemoveOne<E>(p: seq<E>, q: seq<E>, k: nat)
    requires multiset(p) == multiset(q) && |p| > 0 && k < |q| && q[k] == p[|p| - 1]
    ensures multiset(p[..|p| - 1]) == multiset(q[..k] + q[k + 1..])
  {
    var x := p[|p| - 1];
    assert p == p[..|p| - 1] + [x];
    assert q == q[..k] + [x] + q[k + 1..];
    assert multiset(q[..k] + q[k + 1..]) == multiset(q) - multiset{x};
  }

  /** The keys of the one-byte scan's derivations are the keys the filter lets through. */
  lemma {:induction false} ByteFilteredKeys<T>(lib: Library, kPub: PublicKey, vPriv: SecretKey,
                                               cts: seq<Ciphertext>, tags: seq<T>, storedByte: T -> byte)
    requires |cts| == |tags|
    ensures Keys(ByteFiltered(lib, kPub, vPriv, cts, tags, storedByte)) == EntryKeys(lib, kPub, vPriv, Zip(cts, tags), storedByte)
  {
    if |cts| > 0 {
      var i := |cts| - 1;
      var prefix := ByteFiltered(lib, kPub, vPriv, cts[..i], tags[..i], storedByte);
      ByteFilteredKeys(lib, kPub, vPriv, cts[..i], tags[..i], storedByte);
      assert Zip(cts, tags)[..i] == Zip(cts[..i], tags[..i]);
      if ByteTagHit(lib, vPriv, cts[i], storedByte(tags[i])) {
        assert (prefix + [Derivation(lib, kPub, vPriv, i, cts[i])])[..|prefix|] == prefix;
      } else {
        assert prefix + [] == prefix;
      }
    }
  }

  /**
   * Reordering the registry's (ciphertext, tag) pairs, as shuffle_registers
   * does, does not change which stealth keys the one-byte scan derives,
   * only the indices at which it finds them.
   */
  lemma ByteScanOrderIndependent<T>(lib: Library, kPub: PublicKey, vPriv: SecretKey,
                                    cts0: seq<Ciphertext>, tags0: seq<T>, cts: seq<Ciphertext>, tags: seq<T>,
                                    storedByte: T -> byte)
    requires |cts0| == |tags0| && |cts| == |tags|
    requires multiset(Zip(cts, tags)) == multiset(Zip(cts0, tags0))
    ensures Keys(ByteFiltered(lib, kPub, vPriv, cts, tags, storedByte))
         == Keys(ByteFiltered(lib, kPub, vPriv, cts0, tags0, storedByte))
  {
    ByteFilteredKeys(lib, kPub, vPriv, cts, tags, storedByte);
    ByteFilteredKeys(lib, kPub, vPriv, cts0, tags0, storedByte);
    EntryKeysPermutation(lib, kPub, vPriv, Zip(cts, tags), Zip(cts0, tags0), storedByte);
  }

  /**
   * The one-byte scan: the loop of bench/bench.c over one stored byte per
   * entry, and the middle loop of bench/bench_view_tag.c comparing byte 0 of
   * each stored hash. It never stops early.
   */
  method ScanOneByteTag<T>(lib: Library, kPub: PublicKey, vPriv: SecretKey,
                           epkr: array<Ciphertext>, viewTags: array<T>, storedByte: T -> byte)
    returns (derived: seq<Match>)
    requires epkr.Length == viewTags.Length
    ensures derived == ByteFiltered(lib, kPub, vPriv, epkr[..], viewTags[..], storedByte)
  {
    derived := [];
    for i := 0 to epkr.Length
      invariant derived == ByteFiltered(lib, kPub, vPriv, epkr[..i], viewTags[..i], storedByte)
    {
      assert epkr[..i + 1][..i] == epkr[..i] && viewTags[..i + 1][..i] == viewTags[..i];
      var ss := lib.dec(epkr[i], vPriv);
      var tag := CalculateViewTag(lib, Some(ss));
      if storedByte(viewTags[i]) == tag {
        var stealthPubKey := CalculateStealthPubKey(lib, ss, kPub);
        derived := derived + [Match(i, stealthPubKey)];
      }
    }
    assert epkr[..] == epkr[..epkr.Length] && viewTags[..] == viewTags[..viewTags.Length];
  }

  /** The full-tag filter: the ss-hash of the decapsulated secret equals the stored hash. */
  predicate FullTagHit(lib: Library, ssHash: SsHash, vPriv: SecretKey, ct: Ciphertext, stored: Digest) {
    ssHash(lib.dec(ct, vPriv)) == stored
  }

  /** The first entry at or after `from` that passes the full-tag filter, if any. */
  function FirstFullHit(lib: Library, ssHash: SsHash, vPriv: SecretKey,
                        cts: seq<Ciphertext>, tags: seq<Digest>, from: nat): (r: Option<nat>)
    requires |cts| == |tags| && from <= |cts|
    decreases |cts| - from
    ensures r.Some? ==>
      from <= r.value < |cts| && FullTagHit(lib, ssHash, vPriv, cts[r.value], tags[r.value])
      && forall k :: from <= k < r.value ==> !FullTagHit(lib, ssHash, vPriv, cts[k], tags[k])
    ensures r.None? ==> forall k :: from <= k < |cts| ==> !FullTagHit(lib, ssHash, vPriv, cts[k], tags[k])
  {
    if from == |cts| then None
    else if FullTagHit(lib, ssHash, vPriv, cts[from], tags[from]) then Some(from)
    else FirstFullHit(lib, ssHash, vPriv, cts, tags, from + 1)
  }

  /**
   * The inner comparison of the full-tag loop: `equal` starts at 1 and is
   * cleared at every differing byte, all 32 bytes being compared.
   */
  method TagsEqual(tag: Digest, stored: Digest) returns (equal: bool)
    ensures equal <==> tag == stored
  {
    equal := true;
    for j := 0 to 32
      invariant equal <==> tag[..j] == stored[..j]
    {
      assert tag[..j + 1] == tag[..j] + [tag[j]] && stored[..j + 1] == stored[..j] + [stored[j]];
      if tag[j] != stored[j] {
        equal := false;
      }
    }
    assert tag[..32] == tag && stored[..32] == stored;
  }

  /**
   * What a full-tag scan over the entries (cts[i], tags[i]) yields: with no
   * full match, all entries processed and nothing derived; otherwise the
   * entries up to and including the first match processed, and only that
   * match derived.
   */
  predicate FullScanResult(lib: Library, ssHash: SsHash, kPub: PublicKey, vPriv: SecretKey,
                           cts: seq<Ciphertext>, tags: seq<Digest>, processed: nat, derived: Option<Match>)
    requires |cts| == |tags|
  {
    var first := FirstFullHit(lib, ssHash, vPriv, cts, tags, 0);
    (first.None? ==> processed == |cts| && derived.None?)
    && (first.Some? ==>
          processed == first.value + 1
          && derived == Some(Derivation(lib, kPub, vPriv, first.value, cts[first.value])))
  }

  /**
   * The full-tag scan of bench/bench_shuffle.c and of the last loop of
   * bench/bench_view_tag.c. `processed` counts the entries decapsulated and
   * hashed: up to and including the first full match, whose key alone is
   * derived before the loop breaks, or all of them when none matches.
   */
  method ScanFullTag(lib: Library, ssHash: SsHash, kPub: PublicKey, vPriv: SecretKey,
                     epkr: array<Ciphertext>, viewTags: array<Digest>)
    returns (processed: nat, derived: Option<Match>)
    requires epkr.Length == viewTags.Length
    ensures FullScanResult(lib, ssHash, kPub, vPriv, epkr[..], viewTags[..], processed, derived)
  {
    processed, derived := 0, None;
    var i := 0;
    while i < epkr.Length
      invariant 0 <= i <= epkr.Length
      invariant processed == i && derived.None?
      invariant FirstFullHit(lib, ssHash, vPriv, epkr[..], viewTags[..], 0)
             == FirstFullHit(lib, ssHash, vPriv, epkr[..], viewTags[..], i)
    {
      var ss := lib.dec(epkr[i], vPriv);
      var tag := ssHash(ss);
      processed := processed + 1;
      var equal := TagsEqual(tag, viewTags[i]);
      if equal {
        var stealthPubKey := CalculateStealthPubKey(lib, ss, kPub);
        derived := Some(Match(i, stealthPubKey));
        break;
      }
      i := i + 1;
    }
  }
}
