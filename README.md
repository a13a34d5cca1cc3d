# pq-sap: a verified model of the post-quantum stealth-address core

pq-sap is a stealth-address protocol built on CRYSTALS-Kyber. A sender encapsulates a
fresh shared secret `ss` to the recipient's view key. It then derives a one-time
*stealth public key* by re-randomising the recipient's spend key `k_pub` with noise
expanded from `ss`. Finally it publishes the ciphertext together with a one-byte *view
tag* of `ss`. The recipient decapsulates each published ciphertext with its private
view key and runs the same derivation. The view tag lets it skip the derivation for
entries that are not its own. The benchmarks build a registry of such entries,
optionally shuffle it, and time three ways of scanning it: no tag, a one-byte tag,
and a full 32-byte tag that stops at the first match.

This project models that core in Dafny and proves its properties:

- `params.dfy`, module `Params`: the Kyber parameter sets of `libs/params.h`, as
  functions of the security level `KYBER_K`.
- `kyber.dfy`, module `Kyber`: the byte, polynomial and key types, and the interface
  of the pre-built Kyber library. The library is a record `Library` of total,
  deterministic functions. Nothing is assumed of them beyond their signatures, with
  one exception: `shake128` is typed as an output stream, so the extendable-output
  property (a shorter output is a prefix of a longer one) is built into the model.
  Correct decapsulation is a named hypothesis, `DecapsulationCorrect`.
- `protocol.dfy`, module `Protocol`: `src/protocol.c`.
  - `calculate_stealth_pub_key` is an imperative method proved against the functional
    pipeline `StealthPubKey`.
  - The sender and recipient write through out-parameters, which become arrays.
- `timing.dfy`, module `Timing`: `calculate_elapsed_time` in 128-bit unsigned
  arithmetic, and the accumulation of per-trial times.
- `registry.dfy`, module `Registry`: `shuffle_registers` over the two parallel
  arrays, and the registry construction of the three benchmarks.
- `scan.dfy`, module `Scan`: the three scan loops, each as its own method over the
  registry arrays.
- `trials.dfy`, module `Trials`: one trial of each benchmark's `run`, tying
  construction, shuffle and scans to the protocol's correctness.

Randomness is an explicit input:

- Key generation and encapsulation take their random coins as arguments, as the
  `_derand` forms of the Kyber API do.
- `rand()` is a stream of draws: `rand(i)` is the i-th call of one shuffle.
- `calculate_ss_hash` is called by the benchmarks, but `src/protocol_api.h` does not
  declare it and `src/protocol.c` does not define it. `src/protocol_api.h` also
  includes `fips202x4.h`, which is not part of this model. So its definition is not
  visible, and it is a parameter `ssHash` returning 32 bytes, the length the full-tag
  comparison reads.

The protocol and benchmark modules work at `KYBER_K = 3`, the level `libs/params.h`
selects by default. The size functions are proved for every admissible level.

The model follows the code as written, including these points:

- The code has two fixed tag variants, computed by two different functions:
  - the one-byte tag is byte 0 of a 32-byte SHAKE128 output (`calculate_view_tag`);
  - the full tag is the 32-byte output of `calculate_ss_hash`, whose definition is
    not visible (commented-out `shake128` calls beside its uses in
    `bench/bench_shuffle.c` suggest, but do not show, that it is the same SHAKE128).
- The one-byte scan of `bench/bench_view_tag.c` compares byte 0 of the stored
  `calculate_ss_hash` output with `calculate_view_tag`. Nothing in the code makes
  these agree, so their agreement is the hypothesis `TagBytesAgree`.
- The noise vector reaches `polyvec_basemul_acc_montgomery` without an NTT
  (src/protocol.c:99-110). The model reproduces that call sequence.
- Both full-tag scans break at the first match.
- Decapsulation failure is not distinguished: the callers ignore the status that
  `crypto_kem_*` returns (src/protocol.c:16, src/protocol.c:44 and the benchmark
  loops) and use `ss` as written. The model's `dec` is a total function.

## Model

| member | source | states |
|---|---|---|
| Params.Namespace | libs/params.h:20-40 | succeeds exactly for K in {2,3,4} and otherwise yields the build error "KYBER_K must be in {2,3,4}"; each prefix ends in `_` |
| Params.NamespacesDistinct | libs/params.h:20-37 | two different (level, 90s) builds never share a symbol prefix |
| Params.Eta1 | libs/params.h:96-108 | eta1 is 3 exactly when K = 2 and 2 otherwise |
| Params.PublicKeyBytes | libs/params.h:88-154 | the KEM public key is exactly the IND-CPA public key, 384·K + 32 bytes |
| Params.SecretKeyBytes | libs/params.h:138-162 | the KEM secret key is 768·K + 96 bytes |
| Params.CiphertextBytes | libs/params.h:96-170 | the ciphertext is 320·K + 128 bytes for K ≤ 3 and 352·K + 160 bytes for K = 4 |
| Params.StealthAddressBytes | src/protocol.c:3 | the stealth key is KYBER_POLYVECBYTES long: the public key without its 32-byte seed |
| Params.ParameterSetSizes | libs/params.h:80-170 | the (pk, sk, ct) sizes are 800/1632/768, 1184/2400/1088 and 1568/3168/1568 for K = 2, 3, 4 |
| Params.SharedSecretIsSeedSized | libs/params.h:65-122 | KYBER_SSBYTES = KYBER_SYMBYTES = KYBER_INDCPA_MSGBYTES, so a shared secret fits the derivation's `ss[KYBER_SYMBYTES]` |
| Kyber.Shake128Prefix | src/protocol.c:67-69 | SHAKE128 is an extendable output: a shorter request yields a prefix of a longer one. This holds by construction of the stream model, so it records an assumption rather than a proof |
| Protocol.StealthPubKey | src/protocol.c:78-115 | the derivation as a pipeline: unpack `k_pub` into pkpv and A's seed, generate A with flag 0, sample noise component i with nonce i, then tobytes(reduce(tomont(basemul_acc(A, s)) + pkpv)); the method below is proved equal to it |
| Protocol.CalculateStealthPubKey | src/protocol.c:75-116 | the in-place computation returns tobytes(reduce(A·s + pkpv)). pkpv and A's seed come from `k_pub`, A is generated with flag 0, noise component i uses nonce i, and row i of the product is tomont(basemul_acc(a[i], s)) |
| Protocol.SampleNoise | src/protocol.c:98-103 | component i of the noise vector is sampled from `ss` with nonce i; the byte nonce counts 0 .. K-1 without wrapping |
| Protocol.MultiplyRows | src/protocol.c:105-110 | every row i of the product is tomont(basemul_acc(a[i], s)), for the matrix and noise vector it is given |
| Protocol.CalculateViewTag | src/protocol.c:62-72 | a NULL secret gives 0; otherwise the tag is byte 0 of the SHAKE128 output of `ss`, whatever output length is requested |
| Protocol.SenderOutputs | src/protocol.c:43-58 | the sender's three outputs all come from the one (ciphertext, secret) pair `crypto_kem_enc` returns: the stealth key and view tag are derived from that secret; `SenderRecipientAgree` is stated over it |
| Protocol.SenderComputesStealthPubKeyAndViewTag | src/protocol.c:31-59 | with a NULL `v_pub` or `k_pub` no output changes; otherwise the ciphertext, stealth key and view tag all come from the one secret `crypto_kem_enc` returns |
| Protocol.RecipientComputesStealthPubKey | src/protocol.c:10-28 | the output is the derivation applied to the secret decapsulated with `v` |
| Protocol.SenderRecipientAgree | src/protocol.c:10-59 | if decapsulation is correct, the recipient derives the sender's stealth key and recomputes the sender's view tag |
| Protocol.StealthPubKeyDependsOnNoiseOnly | src/protocol.c:78-115 | the derivation reads only `k_pub` and the noise expanded from `ss`: equal noise gives equal keys |
| Timing.ElapsedTime | bench/bench_view_tag.c:10-15 | the result is the difference of the two instants in nanoseconds modulo 2^128. For normalised readings with end ≥ start it is the exact difference |
| Timing.NanosU128 | bench/bench_view_tag.c:12-13 | an instant as `(__uint128_t)tv_sec * 1000000000 + tv_nsec`, each step wrapped modulo 2^128; `NanosU128Exact` states what it equals |
| Timing.NanosU128Exact | bench/bench_shuffle.c:12-13 | the 128-bit conversion of a timespec is its nanosecond count modulo 2^128, and exact for a normalised reading |
| Timing.TotalTime | bench/bench.c:24-69 | `total_ns` after the trials is the sum of the per-trial times modulo 2^128, and exactly that sum when it fits |
| Registry.Target | bench/bench_view_tag.c:25-27 | every index drawn at step i lies in [i, n) |
| Registry.ShufflePrefix | bench/bench_view_tag.c:25-36 | the arrays after the first m iterations of the loop, each swapping position i with `Target` i; it keeps the length |
| Registry.Shuffle | bench/bench_view_tag.c:25 | with n ≤ 1 the shuffle changes nothing |
| Registry.ShufflePrefixPermutes | bench/bench_view_tag.c:29-35 | every prefix of the swap sequence is a permutation of the original array |
| Registry.ShuffleStepPermutes | bench/bench_view_tag.c:27-35 | one step of the loop, a swap at (i, j), is a permutation of the array before it |
| Registry.ShufflePermutes | bench/bench_shuffle.c:23-38 | `shuffle_registers` loses and duplicates no element |
| Registry.ShufflePrefixZip | bench/bench_view_tag.c:29-35 | swapping both arrays at the same (i, j) at every step shuffles the (ciphertext, tag) pairs |
| Registry.ShuffleStepZip | bench/bench_view_tag.c:29-35 | one step on both arrays at the same (i, j) is that step on the (ciphertext, tag) pairs |
| Registry.ShuffleKeepsPairs | bench/bench_shuffle.c:23-38 | both arrays are permuted by one permutation: every ciphertext keeps its tag, and the multiset of pairs is unchanged |
| Registry.ShuffleRegisters | bench/bench_view_tag.c:23-38 | the loop leaves each array equal to the specified shuffle of its old contents |
| Registry.Exchange | bench/bench_view_tag.c:29-35 | the swap through a temporary leaves the array with entries i and j exchanged |
| Registry.BuildTaggedRegistry | bench/bench_view_tag.c:57-76 | the arrays hold, in entry order, the ciphertexts and tags of `TaggedCiphertexts` and `TaggedTags`: entries 0..n-2 are encapsulated to fresh decoy keys and entry n-1 to `v_pub`, and each tag is the ss-hash of its own entry's secret |
| Registry.BuildByteTaggedRegistry | bench/bench.c:36-51 | all n entries are encapsulated to fresh decoy keys, and each holds one tag byte, `calculate_view_tag` of its secret |
| Scan.ScanNoTag | bench/bench_view_tag.c:83-90 | derives a key for every one of the n entries, in order |
| Scan.ByteFiltered | bench/bench_view_tag.c:97-106 | the one-byte scan as a filter over the entries in order: entry i's derivation is kept exactly when its recomputed tag equals its stored byte; `ByteFilteredExact` states this |
| Scan.ByteFilteredExact | bench/bench_view_tag.c:97-106 | the one-byte scan derives exactly the entries whose recomputed tag equals the stored byte, each once, in increasing index order |
| Scan.ByteFilteredAllHits | bench/bench_view_tag.c:97-106 | when every entry passes the filter, the one-byte scan derives what the scan without a tag derives |
| Scan.ScanOneByteTag | bench/bench.c:55-65 | the loop never stops early, and its derivations are the specified filter over all n entries |
| Scan.EntryKeysPermutation | bench/bench_view_tag.c:78 | the keys the one-byte filter lets through depend only on the multiset of entries |
| Scan.ByteScanOrderIndependent | bench/bench_view_tag.c:78-106 | reordering the registry's pairs, as the shuffle does, leaves unchanged the multiset of stealth keys the one-byte scan derives |
| Scan.FirstFullHit | bench/bench_shuffle.c:86-106 | returns the least index whose full tag matches, or none when no entry matches |
| Scan.TagsEqual | bench/bench_view_tag.c:120-121 | after the 32-byte loop, `equal` holds exactly when all 32 bytes agree |
| Scan.ScanFullTag | bench/bench_shuffle.c:86-106 | with no match, all n entries are processed and nothing is derived. Otherwise entries are processed up to and including the first match, and only that one is derived |
| Trials.PairSurvives | bench/bench_shuffle.c:82 | a (ciphertext, tag) pair present before the shuffle is present after it |
| Trials.PairOrigin | bench/bench_shuffle.c:82 | every pair present after the shuffle was present before it |
| Trials.FullScanFindsEntry | bench/bench_shuffle.c:82-106 | a matching entry survives the shuffle, so the full-tag scan stops. When it is the only match, the scan stops at it |
| Trials.TrueEntryFound | bench/bench_shuffle.c:76-104 | under correct decapsulation entry n-1 passes the full-tag filter and yields the sender's key. With no false full match, the scan stops at that entry |
| Trials.TrueEntryHits | bench/bench_view_tag.c:74-122 | under correct decapsulation, entry n-1 passes the full-tag filter and its derivation is the sender's stealth key |
| Trials.OnlyTrueEntryMatches | bench/bench_view_tag.c:63-72 | with no false full match, no decoy entry 0..n-2 passes the full-tag filter |
| Trials.ByteFilteredWithinAll | bench/bench_view_tag.c:84-106 | every derivation of the one-byte scan is also made by the scan without a tag |
| Trials.OneByteFindsTrueEntry | bench/bench_view_tag.c:97-106 | under correct decapsulation and agreeing tag bytes, the one-byte scan derives the sender's key |
| Trials.TrialCiphertexts | bench/bench_view_tag.c:57-78 | the ciphertexts a trial scans: the built registry's, shuffled by `rand` exactly when `shuffle` is set; n of them |
| Trials.TrialTags | bench/bench_view_tag.c:57-78 | the tags a trial scans, shuffled by the same draws as the ciphertexts exactly when `shuffle` is set; n of them |
| Trials.ViewTagTrial | bench/bench_view_tag.c:47-127 | see note (1) below |
| Trials.ViewTagScans | bench/bench_view_tag.c:78-123 | from what each of the three scans computes over the (possibly shuffled) registry, the guarantees of note (1) follow |
| Trials.ShuffleTrial | bench/bench_shuffle.c:45-111 | the registry is built and always shuffled, and the full-tag scan result is that of the shuffled registry (`TrialCiphertexts`, `TrialTags` with shuffle set): it processes entries up to and including the first full match and derives only that one, or all n when none matches. Under correct decapsulation it finds a match, and with no false full match that match is the sender's key |
| Trials.OneByteTrial | bench/bench.c:26-70 | see note (2) below |

Notes to the table:

1. `Trials.ViewTagTrial`:
   - The registry scanned is the built one, shuffled exactly when `shuffle` is set
     (`TrialCiphertexts`, `TrialTags`).
   - The scan without a tag derives entry i of that registry as its i-th result, for
     every i < n.
   - The one-byte scan's result is exactly `ByteFiltered` over that registry with byte 0
     of each stored hash.
   - The full-tag scan's result is `FullScanResult` over that registry.
   - The one-byte and full-tag scans derive only what the scan without a tag derives.
   - The full-tag scan counts the entries it processes up to its first match.
   - Under correct decapsulation, the full-tag scan finds a match.
   - With no false full match, that match is the sender's key. Without the shuffle it
     is reached only after all n entries.
   - When the tag bytes agree as well, the one-byte scan also derives the sender's key.
2. `Trials.OneByteTrial`:
   - Over an all-decoy registry the scan derives exactly the entries whose recomputed
     byte equals the stored byte, each once, in order.

## Left out

- The Kyber library is not part of this model:
  - `crypto_kem_*`, `unpack_pk`, `gen_matrix`, `poly_*`, `polyvec_*` and `shake128`
    (libs/kem.h, libs/indcpa.h, libs/poly.h, libs/polyvec.h, libs/fips202.h) are
    uninterpreted fields of `Kyber.Library`;
  - NTT, Montgomery arithmetic and Keccak are not modelled;
  - KEM correctness is the hypothesis `DecapsulationCorrect`, never a fact.
- `calculate_ss_hash`: `src/protocol_api.h` does not declare it and `src/protocol.c`
  does not define it, and `fips202x4.h` is not part of this model. It is the parameter
  `ssHash`. The agreement of its byte 0 with `calculate_view_tag` is the hypothesis
  `TagBytesAgree`. The absence of a hash collision on a decoy is the hypothesis
  `NoFalseFullMatch`.
- `rand()` is the draw stream `Draws` rather than a PRNG. `randombytes` inside key
  generation and encapsulation is the coin arguments `Coins`, `BuildCoins` and
  `TrialCoins`.
- `clock_gettime` readings are inputs of `Timing.ElapsedTime`.
- These are not modelled, being output or floating point:
  - the `double` averages and `print_time`;
  - every `printf`, including the key and secret hex dumps in
    `recipient_computes_stealth_pub_key` and
    `sender_computes_stealth_pub_key_and_viewtag`.
- `malloc`/`free` of the registry are not modelled. The registry is two Dafny arrays
  whose elements are the pointed-to values, so swapping pointers is swapping values.
- `main` of each benchmark is a driver. It calls `run` with n in {5000, 10000, 20000,
  40000, 80000} and `M_TRIALS` = 10; `bench/bench_view_tag.c` passes shuffle = 0.
- main.c and tests/kem_test.c exercise only the Kyber KEM, which is not part of this
  model. tests/protocol_test.c calls the sender and then the recipient once and
  compares the two stealth keys, which `Protocol.SenderRecipientAgree` states for all
  inputs under correct decapsulation.
- Kyber.Shake128Prefix: the prefix property is an assumption built into the stream
  model of `shake128`, not proved about Keccak.
- `src/protocol_api.h` only renames the parameter constants and declares prototypes.
  Its aliases are the `Params` functions.
- The protocol and benchmark modules fix `KYBER_K` at 3. The other levels change
  the sizes, which `Params` states for every level, and eta1 (3 when `KYBER_K` = 2),
  which only the library's noise sampler reads.
- Timing.TotalTime: the trial loop of `run` is modelled as the accumulation over a
  sequence of per-trial times. The clock readings between trials are not modelled.
- Scan.TagsEqual: `equal` is a `bool` rather than the C `int` that is 1 or 0.
- Protocol.SenderComputesStealthPubKeyAndViewTag: assumes the three output buffers do
  not overlap each other or the inputs. The C code does not check this, and
  overlapping buffers are not modelled.
- Protocol.CalculateViewTag: the NULL check is modelled as an `Option` argument.
  A non-NULL pointer always refers to `KYBER_SSBYTES` bytes.
- Registry.BuildTaggedRegistry: requires n ≥ 1, because the C code writes entry n-1
  unconditionally.
