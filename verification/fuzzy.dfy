/** `run_minhash_deduplication` (cs336_data/deduplication.py): shingle every
    document, sign it with MinHash, band the signatures into buckets, verify
    every candidate pair with exact Jaccard similarity, cluster the verified
    pairs with union-find and keep one document per cluster. Reading and
    writing files is not modelled: documents come in as their texts, and the
    outcome is the clusters and the set of kept document indices. */
module FuzzyDedup {
  import opened Normalize
  import opened Shingles
  import opened MinHash
  import opened Jaccard
  import opened Lsh
  import opened Connectivity
  import UF = UnionFind

  /** The exceptions the run raises before doing any work. */
  datatype ConfigError =
    | DivisionByZero          // `num_hashes % num_bands` with `num_bands == 0`
    | BandsDoNotDivideHashes  // the `ValueError` for `num_hashes % num_bands != 0`

  datatype Result<T> = Ok(value: T) | Err(error: ConfigError)

  /** The clusters, keyed by union-find root, and the indices of the
      documents written out. */
  datatype Dedup = Dedup(clusters: map<nat, seq<nat>>, kept: set<nat>)

  /** The shingle set of every document. */
  function ShingleSets(docs: seq<string>, n: nat, tables: Tables): seq<set<string>>
  {
    seq(|docs|, d requires 0 <= d < |docs| => Ngrams(NormalizeText(docs[d], tables), n))
  }

  /** The signature of every shingle set. */
  ghost function SignaturesOf(grams: seq<set<string>>, numHashes: nat, md5: string -> Digest): seq<seq<Digest>>
  {
    seq(|grams|, d requires 0 <= d < |grams| => Signature(grams[d], numHashes, md5))
  }

  /** The pairs of `pairs` whose shingle sets are at least `threshold` similar. */
  function SimilarPairs(pairs: set<Edge>, grams: seq<set<string>>, threshold: real): set<Edge>
  {
    set p | p in pairs && p.0 < |grams| && p.1 < |grams| && Similarity(grams[p.0], grams[p.1]) >= threshold
  }

  /** The verified pairs: documents that share a band of their signatures and
      whose shingle sets are at least `threshold` similar. These, and only
      these, are merged. */
  ghost function Verified(grams: seq<set<string>>, numHashes: nat, numBands: nat, threshold: real, md5: string -> Digest): set<Edge>
    requires numBands > 0
  {
    SimilarPairs(SharedBandPairs(SignaturesOf(grams, numHashes, md5), numBands, numHashes / numBands), grams, threshold)
  }

  /** Every document `0..n-1` is in exactly one cluster, clusters are not
      empty and hold nothing else. */
  ghost predicate Partition(clusters: map<nat, seq<nat>>, n: nat)
  {
    && (forall r: nat :: r in clusters ==> |clusters[r]| > 0)
    && (forall r: nat, x: nat {:trigger x in clusters[r]} :: r in clusters && x in clusters[r] ==> x < n)
    && (forall x: nat :: x < n ==> Filed(clusters, x))
    && Disjoint(clusters)
  }

  /** Document `x` is in some cluster. */
  ghost predicate Filed(clusters: map<nat, seq<nat>>, x: nat)
  {
    exists r: nat :: r in clusters && x in clusters[r]
  }

  ghost predicate Disjoint(clusters: map<nat, seq<nat>>)
  {
    forall r1: nat, r2: nat, x: nat {:trigger x in clusters[r1], x in clusters[r2]} ::
      r1 in clusters && r2 in clusters && x in clusters[r1] && x in clusters[r2] ==> r1 == r2
  }

  /** Two documents share a cluster exactly when the edges connect them. */
  ghost predicate Components(clusters: map<nat, seq<nat>>, edges: set<Edge>)
  {
    forall r1: nat, r2: nat, x: nat, y: nat {:trigger x in clusters[r1], y in clusters[r2]} ::
      r1 in clusters && r2 in clusters && x in clusters[r1] && y in clusters[r2] ==>
        (Connected(edges, x, y) <==> r1 == r2)
  }

  /** Of every cluster exactly its chosen member is kept, and nothing outside
      the clusters is. */
  ghost predicate OnePerCluster(clusters: map<nat, seq<nat>>, kept: set<nat>, choose: seq<nat> -> nat)
  {
    && (forall r: nat, x: nat {:trigger x in clusters[r]} :: r in clusters && x in clusters[r] ==>
          (x in kept <==> x == choose(clusters[r])))
    && (forall k: nat :: k in kept ==> Filed(clusters, k))
  }

  /** The signature loop: one MinHash signature per document. */
  method Signatures(grams: seq<set<string>>, numHashes: nat, md5: string -> Digest)
    returns (sigs: seq<seq<Digest>>)
    ensures |sigs| == |grams|
    ensures forall d :: 0 <= d < |grams| ==> IsSignature(sigs[d], grams[d], numHashes, md5)
  {
    sigs := [];
    var d := 0;
    while d < |grams|
      invariant d <= |grams| && |sigs| == d
      invariant forall e :: 0 <= e < d ==> IsSignature(sigs[e], grams[e], numHashes, md5)
    {
      var sig := ComputeSignature(grams[d], numHashes, md5);
      sigs := sigs + [sig];
      d := d + 1;
    }
  }

  /** The verification loop: every candidate pair, in whatever order the set
      yields them, is unioned when its Jaccard similarity reaches the
      threshold. Afterwards two documents share a root exactly when the
      similar candidate pairs connect them, so the order did not matter. */
  method ClusterCandidates(n: nat, cands: set<Edge>, grams: seq<set<string>>, threshold: real)
    returns (parent: seq<nat>)
    requires |grams| == n
    requires forall p :: p in cands ==> p.0 < n && p.1 < n
    ensures |parent| == n && UF.Valid(parent)
    ensures forall x: nat, y: nat :: x < n && y < n ==>
      (UF.Same(parent, x, y) <==> Connected(SimilarPairs(cands, grams, threshold), x, y))
  {
    parent := UF.Init(n);
    var todo := cands;
    ghost var done: set<Edge> := {};
    forall x: nat, y: nat | x < n && y < n
      ensures UF.Same(parent, x, y) <==> Connected(done, x, y)
    {
      ConnectedNoEdges(x, y);
    }
    while todo != {}
      invariant todo <= cands
      invariant |parent| == n && UF.Valid(parent)
      invariant done == SimilarPairs(cands - todo, grams, threshold)
      invariant forall x: nat, y: nat :: x < n && y < n ==>
        (UF.Same(parent, x, y) <==> Connected(done, x, y))
      decreases todo
    {
      var p :| p in todo;
      var i, j := p.0, p.1;
      var sim := Similarity(grams[i], grams[j]);
      if sim >= threshold {
        var next := UF.Union(parent, i, j);
        forall x: nat, y: nat | x < n && y < n
          ensures UF.Same(next, x, y) <==> Connected(done + {(i, j)}, x, y)
        {
          ConnectedAddEdge(done, i, j, x, y);
        }
        parent := next;
        done := done + {p};
      }
      assert cands - (todo - {p}) == (cands - todo) + {p};
      todo := todo - {p};
    }
    assert cands - todo == cands;
  }

  /** The grouping loop: every document is filed under the root `find`
      returns for it. The clusters are exactly the root classes of the
      forest, each listing its documents in increasing order. */
  method GroupClusters(parent: seq<nat>) returns (clusters: map<nat, seq<nat>>)
    requires UF.Valid(parent)
    ensures forall r: nat :: r in clusters ==> |clusters[r]| > 0
    ensures forall r: nat, x: nat {:trigger x in clusters[r]} :: r in clusters && x in clusters[r] ==>
      x < |parent| && UF.Root(parent, x) == r
    ensures forall x: nat :: x < |parent| ==> UF.Root(parent, x) in clusters && x in clusters[UF.Root(parent, x)]
    ensures forall r: nat :: r in clusters ==> Increasing(clusters[r])
  {
    clusters := map[];
    var uf := parent;
    var d: nat := 0;
    while d < |parent|
      invariant d <= |parent| && |uf| == |parent| && UF.Valid(uf)
      invariant forall x: nat :: x < |parent| ==> UF.Root(uf, x) == UF.Root(parent, x)
      invariant GroupedUpTo(clusters, parent, d)
    {
      var root, uf' := UF.Find(uf, d);
      uf := uf';
      var members := if root in clusters then clusters[root] else [];
      GroupStep(clusters, parent, d, root);
      clusters := clusters[root := members + [d]];
      d := d + 1;
    }
  }

  /** The documents before `d` are grouped by root, in increasing order. */
  ghost predicate GroupedUpTo(clusters: map<nat, seq<nat>>, parent: seq<nat>, d: nat)
    requires UF.Valid(parent) && d <= |parent|
  {
    && (forall r: nat :: r in clusters ==> |clusters[r]| > 0)
    && (forall r: nat, x: nat {:trigger x in clusters[r]} :: r in clusters && x in clusters[r] ==>
          x < d && UF.Root(parent, x) == r)
    && (forall x: nat :: x < d ==> UF.Root(parent, x) in clusters && x in clusters[UF.Root(parent, x)])
    && (forall r: nat :: r in clusters ==> Increasing(clusters[r]))
  }

  /** Filing document `d` under its root extends the grouping by one. */
  lemma GroupStep(clusters: map<nat, seq<nat>>, parent: seq<nat>, d: nat, root: nat)
    requires UF.Valid(parent) && d < |parent|
    requires GroupedUpTo(clusters, parent, d) && root == UF.Root(parent, d)
    ensures var members := if root in clusters then clusters[root] else [];
      GroupedUpTo(clusters[root := members + [d]], parent, d + 1)
  {
    var members := if root in clusters then clusters[root] else [];
    forall i | 0 <= i < |members| ensures members[i] < d {
      assert members[i] in clusters[root];
    }
    AppendIncreasing(members, d);
  }

  /** Appending a larger document keeps a list in increasing order. */
  lemma AppendIncreasing(members: seq<nat>, d: nat)
    requires Increasing(members)
    requires forall i :: 0 <= i < |members| ==> members[i] < d
    ensures Increasing(members + [d])
  {
  }

  /** The selection loop: `random.choice` on every cluster, here the
      parameter `choose`, which returns some member of a non-empty list. */
  method KeepOnePerCluster(clusters: map<nat, seq<nat>>, choose: seq<nat> -> nat) returns (kept: set<nat>)
    requires forall c: seq<nat> :: |c| > 0 ==> choose(c) in c
    requires forall r: nat :: r in clusters ==> |clusters[r]| > 0
    ensures forall k: nat :: k in kept ==> Filed(clusters, k)
    ensures Disjoint(clusters) ==> forall r: nat, x: nat {:trigger x in clusters[r]} ::
      r in clusters && x in clusters[r] ==> (x in kept <==> x == choose(clusters[r]))
  {
    kept := {};
    var todo := clusters.Keys;
    while todo != {}
      invariant todo <= clusters.Keys
      invariant kept == set r | r in clusters.Keys - todo :: choose(clusters[r])
      decreases todo
    {
      var r :| r in todo;
      kept := kept + {choose(clusters[r])};
      assert clusters.Keys - (todo - {r}) == (clusters.Keys - todo) + {r};
      todo := todo - {r};
    }
    assert clusters.Keys - todo == clusters.Keys;
    forall k: nat | k in kept
      ensures Filed(clusters, k)
    {
      var r :| r in clusters.Keys && k == choose(clusters[r]);
      assert choose(clusters[r]) in clusters[r];
    }
    if Disjoint(clusters) {
      forall r: nat, x: nat | r in clusters && x in clusters[r]
        ensures x in kept <==> x == choose(clusters[r])
      {
        if x in kept {
          var r' :| r' in clusters.Keys && x == choose(clusters[r']);
          assert choose(clusters[r']) in clusters[r'];
        }
      }
    }
  }

  /** The banding step followed by the pair enumeration: the candidate pairs
      are the pairs of documents whose signatures agree on some band. */
  method Candidates(sigs: seq<seq<Digest>>, bands: nat, rows: nat) returns (cands: set<Edge>)
    ensures cands == SharedBandPairs(sigs, bands, rows)
  {
    var buckets := BuildBuckets(sigs, bands, rows);
    cands := CandidatePairs(buckets);
    CandidatesShareBand(buckets, sigs, bands, rows);
  }

  /** Verification, grouping and selection together: on candidate pairs
      between documents `0..n-1` the outcome partitions the documents into
      the components of the similar candidate pairs and keeps one member of
      each. */
  method Cluster(n: nat, cands: set<Edge>, grams: seq<set<string>>, threshold: real, choose: seq<nat> -> nat)
    returns (out: Dedup)
    requires |grams| == n
    requires forall p :: p in cands ==> p.0 < n && p.1 < n
    requires forall c: seq<nat> :: |c| > 0 ==> choose(c) in c
    ensures Partition(out.clusters, n)
    ensures Components(out.clusters, SimilarPairs(cands, grams, threshold))
    ensures OnePerCluster(out.clusters, out.kept, choose)
  {
    var parent := ClusterCandidates(n, cands, grams, threshold);
    var clusters := GroupClusters(parent);
    var kept := KeepOnePerCluster(clusters, choose);
    forall x: nat | x < n
      ensures Filed(clusters, x)
    {
      assert UF.Root(parent, x) in clusters && x in clusters[UF.Root(parent, x)];
    }
    out := Dedup(clusters, kept);
  }

  /** Everything after shingling: signatures, banding, verification,
      clustering and selection. */
  method DeduplicateShingles(
    grams: seq<set<string>>, numHashes: nat, numBands: nat, threshold: real,
    md5: string -> Digest, choose: seq<nat> -> nat)
    returns (out: Dedup)
    requires numBands > 0
    requires forall c: seq<nat> :: |c| > 0 ==> choose(c) in c
    ensures Partition(out.clusters, |grams|)
    ensures Components(out.clusters, Verified(grams, numHashes, numBands, threshold, md5))
    ensures OnePerCluster(out.clusters, out.kept, choose)
  {
    var rows: nat := numHashes / numBands;
    var sigs := Signatures(grams, numHashes, md5);
    SignaturesAreSignaturesOf(sigs, grams, numHashes, md5);
    var cands := Candidates(sigs, numBands, rows);
    assert SimilarPairs(cands, grams, threshold) == Verified(grams, numHashes, numBands, threshold, md5);
    out := Cluster(|grams|, cands, grams, threshold, choose);
  }

  /** `run_minhash_deduplication(...)`. It fails before any work when
      `num_bands` is 0 or does not divide `num_hashes`. Otherwise the clusters
      partition the documents, two documents share a cluster exactly when
      verified pairs connect them (so a pair is merged only through pairs
      whose similarity reached the threshold), and exactly one member of every
      cluster is kept. */
  method RunMinhashDeduplication(
    docs: seq<string>, numHashes: nat, numBands: nat, ngramLength: nat, threshold: real,
    tables: Tables, md5: string -> Digest, choose: seq<nat> -> nat)
    returns (r: Result<Dedup>)
    requires forall c: seq<nat> :: |c| > 0 ==> choose(c) in c
    ensures numBands == 0 <==> r == Err(DivisionByZero)
    ensures (numBands > 0 && numHashes % numBands != 0) <==> r == Err(BandsDoNotDivideHashes)
    ensures r.Ok? ==> Partition(r.value.clusters, |docs|)
    ensures r.Ok? ==> (numBands > 0 &&
      Components(r.value.clusters, Verified(ShingleSets(docs, ngramLength, tables), numHashes, numBands, threshold, md5)))
    ensures r.Ok? ==> OnePerCluster(r.value.clusters, r.value.kept, choose)
  {
    if numBands == 0 {
      return Err(DivisionByZero);
    }
    if numHashes % numBands != 0 {
      return Err(BandsDoNotDivideHashes);
    }
    var grams := ShingleSets(docs, ngramLength, tables);
    var out := DeduplicateShingles(grams, numHashes, numBands, threshold, md5, choose);
    r := Ok(out);
  }

  lemma SignaturesAreSignaturesOf(sigs: seq<seq<Digest>>, grams: seq<set<string>>, numHashes: nat, md5: string -> Digest)
    requires |sigs| == |grams|
    requires forall d :: 0 <= d < |grams| ==> IsSignature(sigs[d], grams[d], numHashes, md5)
    ensures sigs == SignaturesOf(grams, numHashes, md5)
  {
    forall d | 0 <= d < |sigs|
      ensures sigs[d] == SignaturesOf(grams, numHashes, md5)[d]
    {
      ComputedIsSignature(sigs[d], grams[d], numHashes, md5);
    }
  }

  /** Two documents with the same shingle set always form a verified pair,
      for any threshold up to 1: their signatures are equal, so they land in
      the same bucket of the first band, and their similarity is 1. */
  lemma IdenticalShinglesVerified(
    grams: seq<set<string>>, numHashes: nat, numBands: nat, threshold: real,
    md5: string -> Digest, i: nat, j: nat)
    requires numBands > 0 && threshold <= 1.0
    requires i < j < |grams| && grams[i] == grams[j]
    ensures (i, j) in Verified(grams, numHashes, numBands, threshold, md5)
  {
    var rows := numHashes / numBands;
    var sigs := SignaturesOf(grams, numHashes, md5);
    assert sigs[i] == sigs[j];
    assert ShareBand(sigs[i], sigs[j], numBands, rows) by {
      assert Band(sigs[i], 0, rows) == Band(sigs[j], 0, rows);
    }
    assert (i, j) in SharedBandPairs(sigs, numBands, rows);
    SimilarityReflexive(grams[i]);
  }

  /** A document whose similarity to every other document is below the
      threshold touches no verified pair, so it is connected to itself
      only. */
  lemma DissimilarIsolated(
    grams: seq<set<string>>, numHashes: nat, numBands: nat, threshold: real,
    md5: string -> Digest, i: nat, y: nat)
    requires numBands > 0
    requires i < |grams|
    requires forall j :: 0 <= j < |grams| && j != i ==> Similarity(grams[i], grams[j]) < threshold
    requires Connected(Verified(grams, numHashes, numBands, threshold, md5), i, y)
    ensures y == i
  {
    var edges := Verified(grams, numHashes, numBands, threshold, md5);
    forall z: nat
      ensures !Adjacent(edges, i, z)
    {
      if (z, i) in edges {
        SimilaritySymmetric(grams[z], grams[i]);
      }
    }
    ConnectedIsolated(edges, i, y);
  }

  /** In any outcome of the run, a document connected to nobody else is
      kept. */
  lemma IsolatedKept(clusters: map<nat, seq<nat>>, kept: set<nat>, choose: seq<nat> -> nat, n: nat, edges: set<Edge>, i: nat)
    requires forall c: seq<nat> :: |c| > 0 ==> choose(c) in c
    requires Partition(clusters, n) && Components(clusters, edges) && OnePerCluster(clusters, kept, choose)
    requires i < n
    requires forall y: nat :: Connected(edges, i, y) ==> y == i
    ensures i in kept
  {
    assert Filed(clusters, i);
    var r: nat :| r in clusters && i in clusters[r];
    var c := choose(clusters[r]);
    assert c in clusters[r];
    assert Connected(edges, i, c);
  }

  /** In any outcome of the run, two different documents that verified pairs
      connect are never both kept. */
  lemma ConnectedNotBothKept(clusters: map<nat, seq<nat>>, kept: set<nat>, choose: seq<nat> -> nat, n: nat, edges: set<Edge>, i: nat, j: nat)
    requires Partition(clusters, n) && Components(clusters, edges) && OnePerCluster(clusters, kept, choose)
    requires i < n && j < n && i != j
    requires Connected(edges, i, j)
    ensures !(i in kept && j in kept)
  {
    assert Filed(clusters, i) && Filed(clusters, j);
    var r1: nat :| r1 in clusters && i in clusters[r1];
    var r2: nat :| r2 in clusters && j in clusters[r2];
    assert r1 == r2;
  }

  /** Four documents of which the first two have the same shingles and every
      other pair stays below the threshold: the run keeps the last two and
      exactly one of the first two. */
  lemma FourDocuments(
    grams: seq<set<string>>, numHashes: nat, numBands: nat, threshold: real, md5: string -> Digest,
    clusters: map<nat, seq<nat>>, kept: set<nat>, choose: seq<nat> -> nat)
    requires numBands > 0 && threshold <= 1.0
    requires |grams| == 4 && grams[0] == grams[1]
    requires forall i, j :: 0 <= i < 4 && 0 <= j < 4 && i != j && (i >= 2 || j >= 2) ==>
      Similarity(grams[i], grams[j]) < threshold
    requires forall c: seq<nat> :: |c| > 0 ==> choose(c) in c
    requires Partition(clusters, 4)
    requires Components(clusters, Verified(grams, numHashes, numBands, threshold, md5))
    requires OnePerCluster(clusters, kept, choose)
    ensures 2 in kept && 3 in kept && (0 in kept <==> 1 !in kept)
    ensures |kept| == 3
  {
    var edges := Verified(grams, numHashes, numBands, threshold, md5);
    forall x: nat, y: nat | 2 <= x < 4 && Connected(edges, x, y) ensures y == x {
      DissimilarIsolated(grams, numHashes, numBands, threshold, md5, x, y);
    }
    IdenticalShinglesVerified(grams, numHashes, numBands, threshold, md5, 0, 1);
    ConnectedEdge(edges, 0, 1);
    KeptOfFour(clusters, kept, choose, edges);
  }

  /** The counting half of `FourDocuments`, on any edge set that joins the
      first two documents and leaves the last two alone. */
  lemma KeptOfFour(clusters: map<nat, seq<nat>>, kept: set<nat>, choose: seq<nat> -> nat, edges: set<Edge>)
    requires forall c: seq<nat> :: |c| > 0 ==> choose(c) in c
    requires Partition(clusters, 4) && Components(clusters, edges) && OnePerCluster(clusters, kept, choose)
    requires Connected(edges, 0, 1)
    requires forall x: nat, y: nat :: 2 <= x < 4 && Connected(edges, x, y) ==> y == x
    ensures 2 in kept && 3 in kept && (0 in kept <==> 1 !in kept)
    ensures |kept| == 3
  {
    IsolatedKept(clusters, kept, choose, 4, edges, 2);
    IsolatedKept(clusters, kept, choose, 4, edges, 3);
    ConnectedNotBothKept(clusters, kept, choose, 4, edges, 0, 1);
    var c := KeptOfFirstTwo(clusters, kept, choose, edges);
    KeptBelow(clusters, kept, choose, 4);
    CountThree(kept, c);
  }

  /** The member kept from the cluster of the first document is one of the
      first two. */
  lemma KeptOfFirstTwo(clusters: map<nat, seq<nat>>, kept: set<nat>, choose: seq<nat> -> nat, edges: set<Edge>)
    returns (c: nat)
    requires forall c: seq<nat> :: |c| > 0 ==> choose(c) in c
    requires Partition(clusters, 4) && Components(clusters, edges) && OnePerCluster(clusters, kept, choose)
    requires forall x: nat, y: nat :: 2 <= x < 4 && Connected(edges, x, y) ==> y == x
    ensures c < 2 && c in kept
  {
    assert Filed(clusters, 0);
    var r: nat :| r in clusters && 0 in clusters[r];
    c := choose(clusters[r]);
    assert c in clusters[r];
    assert Connected(edges, c, 0);
  }

  /** Only documents of the run are kept. */
  lemma KeptBelow(clusters: map<nat, seq<nat>>, kept: set<nat>, choose: seq<nat> -> nat, n: nat)
    requires Partition(clusters, n) && OnePerCluster(clusters, kept, choose)
    ensures forall k: nat :: k in kept ==> k < n
  {
    forall k: nat | k in kept ensures k < n {
      assert Filed(clusters, k);
    }
  }

  lemma CountThree(kept: set<nat>, c: nat)
    requires c < 2 && c in kept && 2 in kept && 3 in kept
    requires !(0 in kept && 1 in kept)
    requires forall k: nat :: k in kept ==> k < 4
    ensures kept == {c, 2, 3} && |kept| == 3
  {
  }
}
