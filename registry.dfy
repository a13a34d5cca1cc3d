/**
 * The announcement registry of the benchmarks: n entries, each an ephemeral
 * public key (a Kyber ciphertext) with a view tag, kept as two parallel
 * arrays; how bench/bench_view_tag.c, bench/bench_shuffle.c and
 * bench/bench.c fill it, and shuffle_registers, the Fisher-Yates shuffle
 * that permutes both arrays together.
 */
module Registry {
  import opened Wrappers
  import opened Kyber
  import Protocol

  /** The 32-byte hash calculate_ss_hash returns for a shared secret. */
  type Digest = s: seq<byte> | |s| == 32 witness seq(32, _ => 0)

  /** calculate_ss_hash: its definition is not part of this model, so it is a parameter. */
  type SsHash = SharedSecret -> Digest

  /** The successive results of rand() during one shuffle: call i returns rand(i). */
  type Draws = nat -> nat

  /** The number of swaps shuffle_registers makes for n entries: the loop runs while i < n - 1. */
  function Steps(n: int): nat {
    if n > 1 then n - 1 else 0
  }

  /** The index `i + rand() % (n - i)` that step i swaps with. */
  function Target(n: nat, rand: Draws, i: nat): (j: nat)
    requires i < n
    ensures i <= j < n
  {
    i + rand(i) % (n - i)
  }

  /** Exchange the elements at i and j. */
  function Swap<T>(s: seq<T>, i: nat, j: nat): (r: seq<T>)
    requires i < |s| && j < |s|
    ensures |r| == |s|
  {
    s[i := s[j]][j := s[i]]
  }

  /** A swap neither loses nor duplicates an element. */
  lemma SwapPermutes<T>(s: seq<T>, i: nat, j: nat)
    requires i < |s| && j < |s|
    ensures multiset(Swap(s, i, j)) == multiset(s)
  {
  }

  /** The array after the first m steps of the shuffle. */
  function ShufflePrefix<T>(s: seq<T>, rand: Draws, m: nat): (r: seq<T>)
    requires m <= Steps(|s|)
    ensures |r| == |s|
  {
    if m == 0 then s
    else Swap(ShufflePrefix(s, rand, m - 1), m - 1, Target(|s|, rand, m - 1))
  }

  /**
   * The array after shuffle_registers: a permutation of the original, and
   * the original itself when there is at most one entry.
   */
  function Shuffle<T>(s: seq<T>, rand: Draws): (r: seq<T>)
    ensures |r| == |s|
    ensures |s| <= 1 ==> r == s
  {
    ShufflePrefix(s, rand, Steps(|s|))
  }

  /** One step of the shuffle is a permutation of the array before it. */
  lemma ShuffleStepPermutes<T>(s: seq<T>, rand: Draws, m: nat)
    requires 0 < m <= Steps(|s|)
    ensures multiset(ShufflePrefix(s, rand, m)) == multiset(ShufflePrefix(s, rand, m - 1))
  {
    SwapPermutes(ShufflePrefix(s, rand, m - 1), m - 1, Target(|s|, rand, m - 1));
  }

  /** Every prefix of the shuffle is a permutation of the original. */
  lemma {:induction false} ShufflePrefixPermutes<T>(s: seq<T>, rand: Draws, m: nat)
    requires m <= Steps(|s|)
    ensures multiset(ShufflePrefix(s, rand, m)) == multiset(s)
  {
    if m > 0 {
      ShuffleStepPermutes(s, rand, m);
      ShufflePrefixPermutes(s, rand, m - 1);
    }
  }

  /** shuffle_registers permutes the array: no element is lost or duplicated. */
  lemma ShufflePermutes<T>(s: seq<T>, rand: Draws)
    ensures multiset(Shuffle(s, rand)) == multiset(s)
  {
    ShufflePrefixPermutes(s, rand, Steps(|s|));
  }

  /** The entries of two parallel arrays as pairs. */
  function Zip<A, B>(a: seq<A>, b: seq<B>): (z: seq<(A, B)>)
    requires |a| == |b|
    ensures |z| == |a|
    ensures forall i :: 0 <= i < |a| ==> z[i] == (a[i], b[i])
  {
    seq(|a|, i requires 0 <= i < |a| => (a[i], b[i]))
  }

  /** Shuffling two parallel arrays step by step is shuffling their pairs. */
  lemma {:induction false} ShufflePrefixZip<A, B>(a: seq<A>, b: seq<B>, rand: Draws, m: nat)
    requires |a| == |b| && m <= Steps(|a|)
    ensures Zip(ShufflePrefix(a, rand, m), ShufflePrefix(b, rand, m)) == ShufflePrefix(Zip(a, b), rand, m)
  {
    if m > 0 {
      ShufflePrefixZip(a, b, rand, m - 1);
      ShuffleStepZip(a, b, rand, m);
    }
  }

  /** One more step on both arrays is one more step on their pairs. */
  lemma ShuffleStepZip<A, B>(a: seq<A>, b: seq<B>, rand: Draws, m: nat)
    requires |a| == |b| && 0 < m <= Steps(|a|)
    ensures Zip(ShufflePrefix(a, rand, m), ShufflePrefix(b, rand, m))
         == Swap(Zip(ShufflePrefix(a, rand, m - 1), ShufflePrefix(b, rand, m - 1)), m - 1, Target(|a|, rand, m - 1))
  {
    ZipSwap(ShufflePrefix(a, rand, m - 1), ShufflePrefix(b, rand, m - 1), m - 1, Target(|a|, rand, m - 1));
  }

  /** Swapping two parallel arrays at the same indices swaps their pairs. */
  lemma ZipSwap<A, B>(a: seq<A>, b: seq<B>, i: nat, j: nat)
    requires |a| == |b| && i < |a| && j < |a|
    ensures Zip(Swap(a, i, j), Swap(b, i, j)) == Swap(Zip(a, b), i, j)
  {
    var l, r := Zip(Swap(a, i, j), Swap(b, i, j)), Swap(Zip(a, b), i, j);
    assert forall k :: 0 <= k < |a| ==> l[k] == r[k];
  }

  /**
   * Both arrays are permuted by one and the same permutation: the shuffled
   * pairs are the original pairs shuffled, so each ciphertext keeps its tag
   * and no pair is lost or duplicated.
   */
  lemma ShuffleKeepsPairs<A, B>(a: seq<A>, b: seq<B>, rand: Draws)
    requires |a| == |b|
    ensures Zip(Shuffle(a, rand), Shuffle(b, rand)) == Shuffle(Zip(a, b), rand)
    ensures multiset(Zip(Shuffle(a, rand), Shuffle(b, rand))) == multiset(Zip(a, b))
  {
    ShufflePrefixZip(a, b, rand, Steps(|a|));
    ShufflePermutes(Zip(a, b), rand);
  }

  /**
   * shuffle_registers: for i from 0 while i < n - 1, draw
   * j = i + rand() % (n - i) and swap both arrays at i and j.
   */
  method ShuffleRegisters(epkr: array<Ciphertext>, viewTags: array<Digest>, rand: Draws)
    requires epkr.Length == viewTags.Length
    modifies epkr, viewTags
    ensures epkr[..] == Shuffle(old(epkr[..]), rand)
    ensures viewTags[..] == Shuffle(old(viewTags[..]), rand)
  {
    var n := epkr.Length;
    ghost var cts0, tags0 := epkr[..], viewTags[..];
    var i := 0;
    while i < n - 1
      invariant 0 <= i <= Steps(n)
      invariant epkr[..] == ShufflePrefix(cts0, rand, i)
      invariant viewTags[..] == ShufflePrefix(tags0, rand, i)
    {
      var j := i + rand(i) % (n - i);
      assert j == Target(n, rand, i);
      Exchange(epkr, i, j);
      Exchange(viewTags, i, j);
      i := i + 1;
    }
  }

  /** The three-assignment swap through a temporary that shuffle_registers does on each array. */
  method Exchange<T>(a: array<T>, i: nat, j: nat)
    requires i < a.Length && j < a.Length
    modifies a
    ensures a[..] == Swap(old(a[..]), i, j)
  {
    var temp := a[j];
    a[j] := a[i];
    a[i] := temp;
  }

  /**
   * The randomness a registry build draws: the key-generation coins of
   * decoy i and the encapsulation coins of entry i.
   */
  datatype BuildCoins = BuildCoins(decoyKey: nat -> Coins, enc: nat -> Coins)

  /** The public key entry i is encapsulated to: a fresh decoy key pair's, or `v_pub` for the last entry. */
  function EntryRecipient(lib: Library, coins: BuildCoins, n: nat, vPub: PublicKey, i: nat): PublicKey {
    if i + 1 < n then lib.keypair(coins.decoyKey(i)).0 else vPub
  }

  /** Entry i of a registry whose last entry is for the recipient: its ciphertext and its secret. */
  function TaggedEncapsulation(lib: Library, coins: BuildCoins, n: nat, vPub: PublicKey, i: nat): (Ciphertext, SharedSecret) {
    lib.enc(EntryRecipient(lib, coins, n, vPub, i), coins.enc(i))
  }

  /** The ciphertexts of a registry whose last entry is for the recipient, in entry order. */
  function TaggedCiphertexts(lib: Library, coins: BuildCoins, n: nat, vPub: PublicKey): (cts: seq<Ciphertext>)
    ensures |cts| == n
    ensures forall i :: 0 <= i < n ==> cts[i] == TaggedEncapsulation(lib, coins, n, vPub, i).0
  {
    seq(n, i requires 0 <= i < n => TaggedEncapsulation(lib, coins, n, vPub, i).0)
  }

  /** The tags of that registry: the ss-hash of each entry's own secret. */
  function TaggedTags(lib: Library, ssHash: SsHash, coins: BuildCoins, n: nat, vPub: PublicKey): (tags: seq<Digest>)
    ensures |tags| == n
    ensures forall i :: 0 <= i < n ==> tags[i] == ssHash(TaggedEncapsulation(lib, coins, n, vPub, i).1)
  {
    seq<Digest>(n, i requires 0 <= i < n => ssHash(TaggedEncapsulation(lib, coins, n, vPub, i).1))
  }

  /**
   * The registry of bench/bench_view_tag.c and bench/bench_shuffle.c: entries
   * 0 .. n-2 encapsulated to fresh decoy keys, entry n-1 to `v_pub`, every
   * tag the ss-hash of its own entry's secret. The C code writes entry n-1
   * unconditionally, so it needs n >= 1.
   */
  method BuildTaggedRegistry(lib: Library, ssHash: SsHash, coins: BuildCoins, n: int, vPub: PublicKey)
    returns (epkr: array<Ciphertext>, viewTags: array<Digest>)
    requires n >= 1
    ensures fresh(epkr) && fresh(viewTags)
    ensures epkr[..] == TaggedCiphertexts(lib, coins, n, vPub)
    ensures viewTags[..] == TaggedTags(lib, ssHash, coins, n, vPub)
  {
    epkr := new Ciphertext[n];
    viewTags := new Digest[n];
    for i := 0 to n - 1
      invariant forall k :: 0 <= k < i ==>
        var (ct, ss) := TaggedEncapsulation(lib, coins, n, vPub, k);
        epkr[k] == ct && viewTags[k] == ssHash(ss)
    {
      var (tempPub, tempPriv) := lib.keypair(coins.decoyKey(i));
      var (ct, ss) := lib.enc(tempPub, coins.enc(i));
      epkr[i] := ct;
      viewTags[i] := ssHash(ss);
    }
    var (ct, ssSender) := lib.enc(vPub, coins.enc(n - 1));
    epkr[n - 1] := ct;
    viewTags[n - 1] := ssHash(ssSender);
    assert epkr[..] == TaggedCiphertexts(lib, coins, n, vPub);
    assert viewTags[..] == TaggedTags(lib, ssHash, coins, n, vPub);
  }

  /** Entry i of a registry of decoys only: its ciphertext and its secret. */
  function DecoyEncapsulation(lib: Library, coins: BuildCoins, i: nat): (Ciphertext, SharedSecret) {
    lib.enc(lib.keypair(coins.decoyKey(i)).0, coins.enc(i))
  }

  /**
   * The registry of bench/bench.c: all n entries encapsulated to fresh decoy
   * keys, none to the recipient, and one view-tag byte per entry.
   */
  method BuildByteTaggedRegistry(lib: Library, coins: BuildCoins, n: nat)
    returns (epkr: array<Ciphertext>, viewTags: array<byte>)
    ensures fresh(epkr) && fresh(viewTags)
    ensures epkr.Length == n && viewTags.Length == n
    ensures forall i :: 0 <= i < n ==>
      var (ct, ss) := DecoyEncapsulation(lib, coins, i);
      epkr[i] == ct && viewTags[i] == Protocol.CalculateViewTag(lib, Some(ss))
  {
    epkr := new Ciphertext[n];
    viewTags := new byte[n];
    for i := 0 to n
      invariant forall k :: 0 <= k < i ==>
        var (ct, ss) := DecoyEncapsulation(lib, coins, k);
        epkr[k] == ct && viewTags[k] == Protocol.CalculateViewTag(lib, Some(ss))
    {
      var (tempPub, tempPriv) := lib.keypair(coins.decoyKey(i));
      var (ct, ss) := lib.enc(tempPub, coins.enc(i));
      epkr[i] := ct;
      viewTags[i] := Protocol.CalculateViewTag(lib, Some(ss));
    }
  }
}
