/** `compute_minhash_signature` (cs336_data/deduplication.py). MD5 is not
    modelled: it is the parameter `md5`, any function from strings to 128-bit
    values, standing for `int(hashlib.md5(s.encode('utf-8')).hexdigest(), 16)`. */
module MinHash {
  import opened Text

  /** 2^128: one more than the largest MD5 digest read as an integer. */
  const DigestBound: nat := 0x1_0000_0000_0000_0000_0000_0000_0000_0000

  /** An MD5 digest read as an unsigned integer. */
  type Digest = x: nat | x < DigestBound

  /** `2**128 - 1`, the slot value of a document without shingles. */
  const NoContent: Digest := DigestBound - 1

  datatype Option<T> = None | Some(value: T)

  /** Hash function number `i` applied to shingle `g`: MD5 of `str(i) + g`. */
  function SlotHash(md5: string -> Digest, i: nat, g: string): Digest
  {
    md5(DecimalString(i) + g)
  }

  /** `v` is what slot `i` of the signature of `grams` must hold: the sentinel
      for an empty set, otherwise the least seeded hash, attained by some
      shingle. */
  ghost predicate SlotValue(v: Digest, grams: set<string>, i: nat, md5: string -> Digest)
  {
    if grams == {} then v == NoContent
    else
      && (exists g :: g in grams && v == SlotHash(md5, i, g))
      && (forall g :: g in grams ==> v <= SlotHash(md5, i, g))
  }

  /** `sig` is a MinHash signature of `grams` with `numHashes` slots. */
  ghost predicate IsSignature(sig: seq<Digest>, grams: set<string>, numHashes: nat, md5: string -> Digest)
  {
    |sig| == numHashes && forall i :: 0 <= i < numHashes ==> SlotValue(sig[i], grams, i, md5)
  }

  /** `compute_minhash_signature(ngrams, num_hashes)`: for every slot, the
      minimum over the shingles of the slot's seeded hash, or `2**128 - 1`
      when there are no shingles. The shingles are visited in whatever order
      the set yields them. */
  method ComputeSignature(grams: set<string>, numHashes: nat, md5: string -> Digest)
    returns (sig: seq<Digest>)
    ensures |sig| == numHashes
    ensures grams == {} ==> forall i :: 0 <= i < numHashes ==> sig[i] == NoContent
    ensures IsSignature(sig, grams, numHashes, md5)
  {
    sig := [];
    var i := 0;
    while i < numHashes
      invariant i <= numHashes && |sig| == i
      invariant forall k :: 0 <= k < i ==> SlotValue(sig[k], grams, k, md5)
    {
      var minHash: Option<Digest> := None;
      var rest := grams;
      while rest != {}
        invariant rest <= grams
        invariant minHash.None? <==> rest == grams
        invariant minHash.Some? ==> exists g :: g in grams - rest && minHash.value == SlotHash(md5, i, g)
        invariant minHash.Some? ==> forall g :: g in grams - rest ==> minHash.value <= SlotHash(md5, i, g)
        decreases rest
      {
        var g :| g in rest;
        var h := SlotHash(md5, i, g);
        if minHash.None? || h < minHash.value {
          minHash := Some(h);
        }
        rest := rest - {g};
      }
      var v := if minHash.None? then NoContent else minHash.value;
      sig := sig + [v];
      i := i + 1;
    }
  }

  /** A signature is determined by the shingle set: two signatures of the same
      set (in particular, those of two documents with equal shingle sets) are
      equal, whatever order the shingles were visited in. */
  lemma SignatureUnique(s1: seq<Digest>, s2: seq<Digest>, grams: set<string>, numHashes: nat, md5: string -> Digest)
    requires IsSignature(s1, grams, numHashes, md5)
    requires IsSignature(s2, grams, numHashes, md5)
    ensures s1 == s2
  {
    forall i | 0 <= i < numHashes
      ensures s1[i] == s2[i]
    {
      assert SlotValue(s1[i], grams, i, md5);
      assert SlotValue(s2[i], grams, i, md5);
      if grams != {} {
        var g1 :| g1 in grams && s1[i] == SlotHash(md5, i, g1);
        var g2 :| g2 in grams && s2[i] == SlotHash(md5, i, g2);
        assert s2[i] <= s1[i] && s1[i] <= s2[i];
      }
    }
  }

  /** The least value of `f` over a non-empty set, as a reference definition. */
  ghost function MinOver(grams: set<string>, f: string -> Digest): (m: Digest)
    requires grams != {}
    ensures exists g :: g in grams && f(g) == m
    ensures forall g :: g in grams ==> m <= f(g)
    decreases grams
  {
    var g :| g in grams;
    if grams == {g} then f(g)
    else
      var rest := MinOver(grams - {g}, f);
      if f(g) < rest then f(g) else rest
  }

  /** The signature of a shingle set, as a function of the set alone. */
  ghost function Signature(grams: set<string>, numHashes: nat, md5: string -> Digest): (sig: seq<Digest>)
    ensures IsSignature(sig, grams, numHashes, md5)
  {
    var sig := seq(numHashes, i requires 0 <= i => if grams == {} then NoContent else MinOver(grams, g => SlotHash(md5, i, g)));
    assert forall i :: 0 <= i < numHashes ==> SlotValue(sig[i], grams, i, md5);
    sig
  }

  /** What the method computes is the signature of the set. */
  lemma ComputedIsSignature(sig: seq<Digest>, grams: set<string>, numHashes: nat, md5: string -> Digest)
    requires IsSignature(sig, grams, numHashes, md5)
    ensures sig == Signature(grams, numHashes, md5)
  {
    SignatureUnique(sig, Signature(grams, numHashes, md5), grams, numHashes, md5);
  }
}
