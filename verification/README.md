# Deduplication and Gopher quality filter, in Dafny

This project models the data-cleaning core of the `cs336_data` package in Dafny:

- **Exact line deduplication** (`exact_deduplication`). The first pass counts the MD5 digests of the stripped, non-empty lines of every input file. The second pass writes each such line only when its digest was counted exactly once.
- **MinHash deduplication** (`run_minhash_deduplication`). Documents are normalised (`normalize_text`) and cut into word n-grams (`get_ngrams`). Each gets a MinHash signature (`compute_minhash_signature`). The signatures are banded into buckets. Every bucket-sharing pair is checked against a Jaccard threshold (`jaccard_similarity`). The pairs that pass are merged with a union-find forest (`UnionFind`), and one document of every cluster is kept.
- **Gopher quality filter** (`gopher_quality_filters`). It applies the four counting rules on words and lines.

One module per file:

| file | module | models |
|---|---|---|
| `text.dfy` | `Text` | Python whitespace, `str.split`, `' '.join`, `strip`/`lstrip`/`rstrip`, `string.punctuation`, `str(i)` |
| `normalize.dfy` | `Normalize` | `normalize_text` |
| `ngrams.dfy` | `Shingles` | `get_ngrams` |
| `minhash.dfy` | `MinHash` | `compute_minhash_signature` |
| `jaccard.dfy` | `Jaccard` | `jaccard_similarity` |
| `unionfind.dfy` | `UnionFind` | `UnionFind.__init__`, `find`, `union` |
| `connectivity.dfy` | `Connectivity` | reachability over an edge set: what the clusters must equal |
| `lsh.dfy` | `Lsh` | banding, buckets and candidate pairs |
| `fuzzy.dfy` | `FuzzyDedup` | `run_minhash_deduplication` |
| `exact.dfy` | `ExactDedup` | `exact_deduplication` |
| `gopher.dfy` | `Gopher` | `gopher_quality_filters`, `str.splitlines` |

Conventions:

- The union-find forest is a sequence of parents. `Find` and `Union` take a forest and return the updated one.
- A ghost rank witness (`UnionFind.Valid`) carries the acyclicity invariant. It makes `find` terminate.
- Float division is exact rational division (`real`).
- MD5, the Unicode tables and `random.choice` are parameters.

## Model

| member | source | states |
|---|---|---|
| Text.Split | cs336-data/cs336_data/deduplication.py:77 | every piece of `text.split()` is a non-empty run without whitespace |
| Text.SplitRebuild | cs336-data/cs336_data/deduplication.py:77 | the text is the pieces of `text.split()` in order, separated by whitespace only, with at least one whitespace character between two neighbouring pieces and a leading one whenever the text starts with whitespace: the pieces are exactly the maximal runs |
| Text.SplitJoin | cs336-data/cs336_data/deduplication.py:77 | splitting the single-space join of words gives the same words back |
| Text.JoinCollapsed | cs336-data/cs336_data/deduplication.py:77 | the single-space join of words has no leading, trailing or doubled whitespace, and only `' '` as whitespace |
| Text.CollapsedIffFixed | cs336-data/cs336_data/deduplication.py:77 | `' '.join(t.split()) == t` exactly when `t` is already collapsed (no edge or doubled whitespace, only single spaces) |
| Text.JoinSplitOfCollapsed | cs336-data/cs336_data/deduplication.py:77 | re-collapsing an already collapsed string leaves it unchanged |
| Text.SplitCounts | cs336-data/cs336_data/quality_classifier.py:19-27 | the number of words is the number of maximal non-whitespace runs, and their total length is the number of non-whitespace characters |
| Text.StripShape | cs336-data/cs336_data/deduplication.py:28 | `strip()` returns an infix with non-whitespace ends, and everything it removed is whitespace |
| Text.LStripShape | cs336-data/cs336_data/deduplication.py:28 | `lstrip` removes exactly the leading whitespace |
| Text.RStripShape | cs336-data/cs336_data/quality_classifier.py:35 | `rstrip` removes exactly the trailing whitespace |
| Text.StripPadded | cs336-data/cs336_data/deduplication.py:42-46 | a line with non-whitespace ends, read back with its newline, strips to itself |
| Text.DecimalRoundTrip | cs336-data/cs336_data/deduplication.py:100 | `str(i)` is a non-empty digit string that reads back as `i`, so distinct seeds give distinct prefixes |
| Normalize.DropCombining | cs336-data/cs336_data/deduplication.py:72 | no combining character survives and the text does not grow |
| Normalize.DropPunctuation | cs336-data/cs336_data/deduplication.py:74-75 | no `string.punctuation` character survives and the text does not grow |
| Normalize.DropCombiningCounts | cs336-data/cs336_data/deduplication.py:72 | every character that is not a combining mark is kept, exactly as often as it occurs in the input |
| Normalize.DropPunctuationCounts | cs336-data/cs336_data/deduplication.py:74-75 | every character outside `string.punctuation` is kept, exactly as often as it occurs in the input |
| Normalize.DropCombiningAppend | cs336-data/cs336_data/deduplication.py:72 | the filter works piecewise over concatenation, so the kept characters keep their order |
| Normalize.DropPunctuationAppend | cs336-data/cs336_data/deduplication.py:74-75 | `translate` works piecewise over concatenation, so the kept characters keep their order |
| Normalize.NormalizeText | cs336-data/cs336_data/deduplication.py:65-78 | output is collapsed (no edge or doubled whitespace), punctuation-free and free of combining marks, with the words of the cleaned text |
| Normalize.NormalizeIdempotent | cs336-data/cs336_data/deduplication.py:65-78 | normalising twice equals normalising once, for character tables whose fold output is already folded |
| Shingles.Ngrams | cs336-data/cs336_data/deduplication.py:80-87 | empty when the text has fewer than `n` words; otherwise at most `len(words)-n+1` shingles |
| Shingles.NgramsCharacterization | cs336-data/cs336_data/deduplication.py:84-87 | a string is a shingle exactly when it is collapsed and its words are `n` consecutive words of the text |
| Shingles.ShingleHasNWords | cs336-data/cs336_data/deduplication.py:87 | every shingle splits into exactly `n` words |
| Shingles.WindowCount | cs336-data/cs336_data/deduplication.py:87 | `k` windows give at most `k` distinct shingles |
| MinHash.ComputeSignature | cs336-data/cs336_data/deduplication.py:89-108 | length `num_hashes`; `2**128-1` everywhere for no shingles; otherwise slot `i` is attained by some shingle's seeded hash and is at most every such hash |
| MinHash.MinOver | cs336-data/cs336_data/deduplication.py:97-103 | the minimum over a non-empty set is attained and is a lower bound |
| MinHash.SignatureUnique | cs336-data/cs336_data/deduplication.py:89-108 | the signature is determined by the shingle set, whatever order the set is visited in |
| MinHash.ComputedIsSignature | cs336-data/cs336_data/deduplication.py:89-108 | the computed signature equals the reference signature of the shingle set, so equal sets give equal signatures |
| Jaccard.Similarity | cs336-data/cs336_data/deduplication.py:110-116 | result in [0, 1], and 1 exactly when the two sets are equal (two empty sets included) |
| Jaccard.SimilaritySymmetric | cs336-data/cs336_data/deduplication.py:116 | similarity does not depend on argument order |
| Jaccard.SimilarityReflexive | cs336-data/cs336_data/deduplication.py:113-116 | a set is fully similar to itself |
| Jaccard.SimilarityDisjoint | cs336-data/cs336_data/deduplication.py:116 | disjoint sets, not both empty, have similarity 0 |
| Jaccard.AtLeastByCrossMultiplication | cs336-data/cs336_data/deduplication.py:180-181 | `sim >= threshold` exactly when `|A∩B| >= threshold·|A∪B|` |
| UnionFind.Init | cs336-data/cs336_data/deduplication.py:50-51 | a valid forest of `n` singletons: every node is its own root |
| UnionFind.RootBy | cs336-data/cs336_data/deduplication.py:54-57 | following parents from a node ends at a node that is its own parent |
| UnionFind.RootByIndependent | cs336-data/cs336_data/deduplication.py:54-57 | the root reached does not depend on which rank witness justified termination |
| UnionFind.HalvingKeepsRoots | cs336-data/cs336_data/deduplication.py:55 | re-pointing a node at its grandparent keeps the forest acyclic and no node's root changes |
| UnionFind.HalvingKeepsRoot | cs336-data/cs336_data/deduplication.py:55 | the same for a single node |
| UnionFind.Find | cs336-data/cs336_data/deduplication.py:53-57 | terminates and returns the root of `i`, a node that is its own parent; the halved forest is valid and has the same root for every node |
| UnionFind.LinkRoots | cs336-data/cs336_data/deduplication.py:62-63 | hanging one root under another keeps the forest acyclic and moves exactly the nodes of that root's tree |
| UnionFind.Union | cs336-data/cs336_data/deduplication.py:59-63 | afterwards `i` and `j` share a root; nodes under `j`'s old root move to `i`'s root and no other node moves, so only those two components merge |
| Connectivity.ConnectedAddEdge | cs336-data/cs336_data/deduplication.py:181-182 | adding edge `(a, b)` connects `x` and `y` exactly when they were connected or joined through `a` and `b`, as `union` merges components |
| Connectivity.ConnectedNoEdges | cs336-data/cs336_data/deduplication.py:177 | with no edges a node is connected only to itself, matching the singleton start |
| Connectivity.ConnectedIsolated | cs336-data/cs336_data/deduplication.py:178-182 | a node that touches no edge is connected to itself only |
| Lsh.BandInRange | cs336-data/cs336_data/deduplication.py:164-166 | with `rows·bands` signature values, band `b` is exactly the slice `sig[b*r:(b+1)*r]` of length `r` |
| Lsh.BuildBuckets | cs336-data/cs336_data/deduplication.py:160-167 | every document is filed under each of its `(band, slice)` keys, in increasing order, and nowhere else |
| Lsh.Sorted | cs336-data/cs336_data/deduplication.py:174 | `tuple(sorted((i, j)))` is ordered and holds the same two indices |
| Lsh.CandidatePairs | cs336-data/cs336_data/deduplication.py:169-174 | every candidate pair is ordered |
| Lsh.SharedBandPairs | cs336-data/cs336_data/deduplication.py:169-174 | pairs sharing a band are strictly ordered document indices |
| Lsh.CandidatesShareBand | cs336-data/cs336_data/deduplication.py:160-174 | the candidate pairs are exactly the pairs `i < j` whose signatures agree on some band |
| FuzzyDedup.Signatures | cs336-data/cs336_data/deduplication.py:154-158 | one MinHash signature per document |
| FuzzyDedup.Candidates | cs336-data/cs336_data/deduplication.py:160-174 | banding then pairing yields exactly the pairs that agree on some band |
| FuzzyDedup.ClusterCandidates | cs336-data/cs336_data/deduplication.py:176-182 | afterwards two documents share a root exactly when candidate pairs with similarity at least the threshold connect them, whatever the iteration order |
| FuzzyDedup.GroupClusters | cs336-data/cs336_data/deduplication.py:184-188 | the clusters are exactly the root classes: each document sits under its own root and under no other, and each cluster lists its documents in increasing order |
| FuzzyDedup.KeepOnePerCluster | cs336-data/cs336_data/deduplication.py:190-194 | only cluster members are kept, and of disjoint clusters exactly the chosen member of each |
| FuzzyDedup.Cluster | cs336-data/cs336_data/deduplication.py:176-194 | the clusters partition the documents into the components of the similar candidate pairs, with one kept per cluster |
| FuzzyDedup.DeduplicateShingles | cs336-data/cs336_data/deduplication.py:154-194 | the same, with the components those of the verified pairs (sharing a band and at least `threshold` similar) |
| FuzzyDedup.RunMinhashDeduplication | cs336-data/cs336_data/deduplication.py:134-194 | fails exactly when `num_bands` is 0 or does not divide `num_hashes`; otherwise the clusters partition the documents, are the components of the verified pairs, and exactly one member of each is kept |
| FuzzyDedup.IdenticalShinglesVerified | cs336-data/cs336_data/deduplication.py:160-182 | two documents with the same shingles always form a verified pair for a threshold up to 1 |
| FuzzyDedup.DissimilarIsolated | cs336-data/cs336_data/deduplication.py:178-182 | a document below the threshold against every other is merged with none |
| FuzzyDedup.IsolatedKept | cs336-data/cs336_data/deduplication.py:184-194 | a document connected to no other is always kept |
| FuzzyDedup.ConnectedNotBothKept | cs336-data/cs336_data/deduplication.py:184-194 | two different connected documents are never both kept |
| FuzzyDedup.FourDocuments | cs336-data/cs336_data/deduplication.py:134-194 | with four documents where the first two have the same shingle set and every other pair is below the threshold, exactly three are kept: the last two and one of the first two |
| FuzzyDedup.KeptOfFour | cs336-data/cs336_data/deduplication.py:184-194 | the counting step of that scenario for any edge set of that shape |
| ExactDedup.ContentStripped | cs336-data/cs336_data/deduplication.py:27-29 | every counted line is stripped and non-empty |
| ExactDedup.TallyCounts | cs336-data/cs336_data/deduplication.py:24-31 | the count map holds exactly the digests of the counted lines, each with its number of occurrences |
| ExactDedup.CountLineStep | cs336-data/cs336_data/deduplication.py:27-31 | one loop step adds one to the digest of a non-blank line and ignores a blank one |
| ExactDedup.CountFile | cs336-data/cs336_data/deduplication.py:26-31 | the inner loop extends the count by the stripped non-empty lines of one file |
| ExactDedup.CountLines | cs336-data/cs336_data/deduplication.py:21-31 | `line_counts` maps each digest to how many stripped non-empty lines of all files have it, and holds no other key |
| ExactDedup.LineCounted | cs336-data/cs336_data/deduplication.py:43-45 | the second pass's lookup `line_counts[line_hash]` always finds its key |
| ExactDedup.WriteLineStep | cs336-data/cs336_data/deduplication.py:41-46 | one loop step writes the line exactly when it is non-blank and its digest count is 1 |
| ExactDedup.WriteFile | cs336-data/cs336_data/deduplication.py:40-46 | one file's output is its stripped non-empty lines, in order, whose digest occurs once |
| ExactDedup.WriteUnique | cs336-data/cs336_data/deduplication.py:36-46 | the second pass writes that for every file |
| ExactDedup.ExactDeduplication | cs336-data/cs336_data/deduplication.py:10-46 | the two passes together write, for every file, the in-order stripped non-empty lines whose digest occurs exactly once in the whole input |
| ExactDedup.KeepUniqueMembers | cs336-data/cs336_data/deduplication.py:42-46 | a line is written exactly when it is a line of the file and its digest count is 1 |
| ExactDedup.HashesCoverCount | cs336-data/cs336_data/deduplication.py:30 | a digest's count is at least the number of occurrences of any line with that digest |
| ExactDedup.HashesCountLine | cs336-data/cs336_data/deduplication.py:30 | without digest collisions, a digest's count is its line's number of occurrences |
| ExactDedup.WrittenLinesAreUnique | cs336-data/cs336_data/deduplication.py:36-46 | every written line occurs exactly once in the whole input, collisions or not: a line repeated anywhere, even inside one file, is written nowhere |
| ExactDedup.UniqueLinesAreWritten | cs336-data/cs336_data/deduplication.py:36-46 | without digest collisions every line occurring once in the whole input is written to its own file's output |
| ExactDedup.ContentOfWritten | cs336-data/cs336_data/deduplication.py:46 | the lines of a written file, read back and stripped, are the lines written |
| ExactDedup.DeduplicationIdempotent | cs336-data/cs336_data/deduplication.py:10-46 | deduplicating the output files again writes them unchanged |
| ExactDedup.TwoFilesExample | cs336-data/cs336_data/deduplication.py:10-46 | files `x,y` and `y,z,blank` give outputs `x` and `z` |
| Gopher.SplitLines | cs336-data/cs336_data/quality_classifier.py:33 | `splitlines()` yields lines containing no line boundary, at most one per character |
| Gopher.SplitLinesCount | cs336-data/cs336_data/quality_classifier.py:33 | `splitlines()` yields one line per boundary (`\r\n` counted once), plus one when the text is non-empty and does not end in a boundary |
| Gopher.SplitLinesContent | cs336-data/cs336_data/quality_classifier.py:33 | the lines joined back together are the text with its boundary characters removed |
| Gopher.SplitLinesRebuild | cs336-data/cs336_data/quality_classifier.py:33 | the text is each line of `splitlines()` followed by its terminator, a single boundary character or `\r\n`, where only the last line may have none: the lines end exactly at the boundaries |
| Gopher.SplitLinesTerminated | cs336-data/cs336_data/quality_classifier.py:33 | break-free lines, each written with `\n`, split back into themselves |
| Gopher.LineLen | cs336-data/cs336_data/quality_classifier.py:33 | a line runs up to the first boundary character |
| Gopher.RatioBelow | cs336-data/cs336_data/quality_classifier.py:28-29 | comparing `a/b` with `c/d` is comparing `a·d` with `c·b` |
| Gopher.MeanLengthRule | cs336-data/cs336_data/quality_classifier.py:27-30 | the mean word length lies in [3, 10] exactly when `3·words ≤ chars ≤ 10·words` |
| Gopher.EllipsisRule | cs336-data/cs336_data/quality_classifier.py:33-37 | the ellipsis rule passes exactly when `10·ellipsis lines ≤ 3·lines`, so it passes on a text without lines |
| Gopher.AlphaRule | cs336-data/cs336_data/quality_classifier.py:40-42 | the alphabetic rule passes exactly when `5·alphabetic words ≥ 4·words` |
| Gopher.GopherQualityFilters | cs336-data/cs336_data/quality_classifier.py:6-44 | true exactly when all four rules hold on whole numbers, with words counted as maximal non-whitespace runs: 50 ≤ words ≤ 100000; 3·words ≤ non-whitespace chars ≤ 10·words; 10·ellipsis lines ≤ 3·lines; 5·alphabetic words ≥ 4·words. So the order of the early returns does not matter |

## Left out

- File I/O is not modelled: `open`, `os.makedirs`, output paths and `os.path.basename`. Documents and files come in as their text or as the sequence of lines iteration yields (terminators included). Outputs are the written lines per file, and the kept document indices for the MinHash run. Two inputs with the same base name overwrite each other's output in the source; the model keeps one output per input.
- Universal-newline translation while reading a file is not modelled; the lines arrive already split.
- MD5 is the parameter `md5`, a function into `[0, 2^128)`. The hex round trip `int(hexdigest, 16)` is folded into it. Exact deduplication keys its counts by digest, as the source does. Collision freedom is assumed only where a lemma says so (`Injective`).
- `str.lower()`, NFD normalisation and `unicodedata.combining` are the per-character tables `Tables.fold` and `Tables.combining`. The context-dependent lowering of final sigma is not modelled.
- Normalize.NormalizeIdempotent: it requires `FoldSettles`, a property of the Unicode tables: folding a character's fold changes nothing. It is assumed of the tables, not proved.
- Floats are not modelled. The Jaccard value, the threshold and the Gopher ratios are exact rationals. Rounding, NaN or infinite thresholds are left out.
- `random.choice` is the parameter `choose`, which returns some member of a non-empty list.
- Set and dictionary iteration order is not modelled. The models pick elements in any order, and the contracts hold whichever order is used.
- `run_minhash_deduplication` writing the kept documents out (lines 196-205) is not modelled; the outcome is the kept index set.
- The fastText training and prediction (`train_fasttext_model`, `QualityModel`, `load_and_predict`), `identify_text.py`, `extract_text.py`, `create_quality_datasets.py`, `subsample_urls.py` and `tests/adapters.py` are not part of this model. They are model wrappers, external-library calls, I/O or pass-throughs.
- With `num_bands == 0`, the `%` at line 134 of `deduplication.py` raises `ZeroDivisionError` before the `ValueError` of line 135 can be raised. The model reports this case as its own error, `DivisionByZero`.
- `find` halves the path (line 55 of `deduplication.py`): each visited node is re-pointed at its grandparent. There is no full path compression and no union by rank. The model follows the code.
- Negative `num_hashes`, `num_bands` or `ngram_length` are not modelled; they are natural numbers here.
