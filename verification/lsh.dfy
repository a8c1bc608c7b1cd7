/** The banding step of `run_minhash_deduplication`
    (cs336_data/deduplication.py): every signature is cut into `bands` slices
    of `rows` values, documents are grouped by `(band, slice)`, and every two
    documents sharing a group become a candidate pair. */
module Lsh {
  import opened MinHash

  /** `(b, tuple(sig[start:end]))`. */
  type BucketKey = (nat, seq<Digest>)

  /** Python's `s[lo:hi]` for non-negative bounds: both bounds are clamped to
      the length, and a reversed range is empty. */
  function Slice(s: seq<Digest>, lo: nat, hi: nat): seq<Digest>
  {
    var l := if lo < |s| then lo else |s|;
    var h := if hi < |s| then hi else |s|;
    if l <= h then s[l..h] else []
  }

  /** `sig[b * rows_per_band : b * rows_per_band + rows_per_band]`. */
  function Band(sig: seq<Digest>, b: nat, rows: nat): seq<Digest>
  {
    Slice(sig, b * rows, b * rows + rows)
  }

  /** When the signature has `bands * rows` values, band `b < bands` is exactly
      the `b`-th run of `rows` consecutive values: no clamping happens. */
  lemma BandInRange(sig: seq<Digest>, b: nat, bands: nat, rows: nat)
    requires |sig| == bands * rows && b < bands
    ensures b * rows + rows <= |sig|
    ensures Band(sig, b, rows) == sig[b * rows..(b + 1) * rows]
    ensures |Band(sig, b, rows)| == rows
  {
    assert (b + 1) * rows <= bands * rows by {
      MulLeq(b + 1, bands, rows);
    }
  }

  lemma MulLeq(x: nat, y: nat, z: nat)
    requires x <= y
    ensures x * z <= y * z
  {
  }

  /** Signatures `x` and `y` agree on some band. */
  predicate ShareBand(x: seq<Digest>, y: seq<Digest>, bands: nat, rows: nat)
  {
    exists c :: 0 <= c < bands && Band(x, c, rows) == Band(y, c, rows)
  }

  predicate Increasing(s: seq<nat>)
  {
    forall i, j :: 0 <= i < j < |s| ==> s[i] < s[j]
  }

  /** Document `x`, band `c` was handled before document `d`, band `b`. */
  predicate Before(x: nat, c: nat, d: nat, b: nat)
  {
    x < d || (x == d && c < b)
  }

  /** `buckets` holds exactly the (document, band) entries handled before
      `(d, b)`: every listed document is filed under its own band slice, every
      handled entry is listed, and every list is in increasing document order. */
  ghost predicate BucketsUpTo(buckets: map<BucketKey, seq<nat>>, sigs: seq<seq<Digest>>, bands: nat, rows: nat, d: nat, b: nat)
  {
    && (forall k: BucketKey :: k in buckets ==> Increasing(buckets[k]))
    && (forall k: BucketKey, x: nat {:trigger x in buckets[k]} :: k in buckets && x in buckets[k] ==>
          x < |sigs| && k.0 < bands && Before(x, k.0, d, b) && Band(sigs[x], k.0, rows) == k.1)
    && (forall x: nat, c: nat :: 0 <= x < |sigs| && 0 <= c < bands && Before(x, c, d, b) ==>
          (c, Band(sigs[x], c, rows)) in buckets && x in buckets[(c, Band(sigs[x], c, rows))])
  }

  /** Every document is filed under every one of its bands, and only there. */
  ghost predicate Bucketed(buckets: map<BucketKey, seq<nat>>, sigs: seq<seq<Digest>>, bands: nat, rows: nat)
  {
    BucketsUpTo(buckets, sigs, bands, rows, |sigs|, 0)
  }

  /** The bucket-filling loop: documents in order, bands in order, each
      document appended to the list of its `(band, slice)` key. */
  method BuildBuckets(sigs: seq<seq<Digest>>, bands: nat, rows: nat)
    returns (buckets: map<BucketKey, seq<nat>>)
    ensures Bucketed(buckets, sigs, bands, rows)
  {
    buckets := map[];
    var d := 0;
    while d < |sigs|
      invariant d <= |sigs|
      invariant BucketsUpTo(buckets, sigs, bands, rows, d, 0)
    {
      var b := 0;
      while b < bands
        invariant b <= bands
        invariant BucketsUpTo(buckets, sigs, bands, rows, d, b)
      {
        var key := (b, Band(sigs[d], b, rows));
        var docs := if key in buckets then buckets[key] else [];
        AppendKeepsBuckets(buckets, sigs, bands, rows, d, b);
        buckets := buckets[key := docs + [d]];
        b := b + 1;
      }
      NextDocument(buckets, sigs, bands, rows, d);
      d := d + 1;
    }
  }

  lemma NextDocument(buckets: map<BucketKey, seq<nat>>, sigs: seq<seq<Digest>>, bands: nat, rows: nat, d: nat)
    requires BucketsUpTo(buckets, sigs, bands, rows, d, bands)
    ensures BucketsUpTo(buckets, sigs, bands, rows, d + 1, 0)
  {
    forall k: BucketKey, x: nat | k in buckets && x in buckets[k]
      ensures Before(x, k.0, d + 1, 0)
    {
      assert Before(x, k.0, d, bands);
    }
    forall x: nat, c: nat | 0 <= x < |sigs| && 0 <= c < bands && Before(x, c, d + 1, 0)
      ensures Before(x, c, d, bands)
    {
    }
  }

  lemma AppendKeepsBuckets(buckets: map<BucketKey, seq<nat>>, sigs: seq<seq<Digest>>, bands: nat, rows: nat, d: nat, b: nat)
    requires d < |sigs| && b < bands
    requires BucketsUpTo(buckets, sigs, bands, rows, d, b)
    ensures
      var key := (b, Band(sigs[d], b, rows));
      var docs := if key in buckets then buckets[key] else [];
      BucketsUpTo(buckets[key := docs + [d]], sigs, bands, rows, d, b + 1)
  {
    var key := (b, Band(sigs[d], b, rows));
    var docs := if key in buckets then buckets[key] else [];
    var nb := buckets[key := docs + [d]];
    forall x | x in docs
      ensures x < d
    {
      assert key in buckets && x in buckets[key];
    }
    var l := docs + [d];
    forall i, j | 0 <= i < j < |l|
      ensures l[i] < l[j]
    {
      assert l[i] == docs[i] && docs[i] in docs;
      if j < |docs| {
        assert l[j] == docs[j];
      }
    }
    forall k: BucketKey, x: nat | k in nb && x in nb[k]
      ensures x < |sigs| && k.0 < bands && Before(x, k.0, d, b + 1) && Band(sigs[x], k.0, rows) == k.1
    {
      if k == key && x !in docs {
        assert x == d;
      }
    }
    forall x: nat, c: nat | 0 <= x < |sigs| && 0 <= c < bands && Before(x, c, d, b + 1)
      ensures (c, Band(sigs[x], c, rows)) in nb && x in nb[(c, Band(sigs[x], c, rows))]
    {
      if !(x == d && c == b) {
        assert Before(x, c, d, b);
      }
    }
  }

  /** Python's `tuple(sorted((i, j)))`. */
  function Sorted(i: nat, j: nat): (p: (nat, nat))
    ensures p.0 <= p.1
    ensures {p.0, p.1} == {i, j}
  {
    if i <= j then (i, j) else (j, i)
  }

  /** The candidate-pair loop: every two entries of one bucket, as a sorted
      pair, collected into a set (a bucket with one entry yields none). */
  function CandidatePairs(buckets: map<BucketKey, seq<nat>>): (pairs: set<(nat, nat)>)
    ensures forall p :: p in pairs ==> p.0 <= p.1
  {
    set k, a, c | k in buckets && 0 <= a < c < |buckets[k]| :: Sorted(buckets[k][a], buckets[k][c])
  }

  /** Pairs of distinct documents whose signatures agree on at least one band. */
  function SharedBandPairs(sigs: seq<seq<Digest>>, bands: nat, rows: nat): (pairs: set<(nat, nat)>)
    ensures forall p :: p in pairs ==> p.0 < p.1 < |sigs|
  {
    set i, j | 0 <= i < j < |sigs| && ShareBand(sigs[i], sigs[j], bands, rows) :: (i, j)
  }

  /** The candidates are exactly the pairs `(i, j)` with `i < j` whose
      signatures share a bucket: banding neither misses such a pair nor
      proposes any other. */
  lemma CandidatesShareBand(buckets: map<BucketKey, seq<nat>>, sigs: seq<seq<Digest>>, bands: nat, rows: nat)
    requires Bucketed(buckets, sigs, bands, rows)
    ensures CandidatePairs(buckets) == SharedBandPairs(sigs, bands, rows)
  {
    var cands := CandidatePairs(buckets);
    var shared := SharedBandPairs(sigs, bands, rows);
    forall p | p in cands
      ensures p in shared
    {
      var k, a, c :| k in buckets && 0 <= a < c < |buckets[k]| && p == Sorted(buckets[k][a], buckets[k][c]);
      var l := buckets[k];
      assert l[a] < l[c];
      assert l[a] in buckets[k] && l[c] in buckets[k];
      assert ShareBand(sigs[l[a]], sigs[l[c]], bands, rows);
    }
    forall p | p in shared
      ensures p in cands
    {
      var i, j := p.0, p.1;
      var c :| 0 <= c < bands && Band(sigs[i], c, rows) == Band(sigs[j], c, rows);
      var k := (c, Band(sigs[i], c, rows));
      assert Before(i, c, |sigs|, 0) && Before(j, c, |sigs|, 0);
      var l := buckets[k];
      assert i in l && j in l;
      var a :| 0 <= a < |l| && l[a] == i;
      var a' :| 0 <= a' < |l| && l[a'] == j;
      assert a < a';
      assert p == Sorted(l[a], l[a']);
    }
  }
}
