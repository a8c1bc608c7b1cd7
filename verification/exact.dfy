/** `exact_deduplication` (cs336_data/deduplication.py): a line survives only
    if no other line of the whole input shares its MD5 digest. Files are
    given as the sequences of lines `for line in file` yields (terminators
    included); each output file is the sequence of lines written to it,
    every one followed by a newline. MD5 is the parameter `md5`. */
module ExactDedup {
  import opened Text
  import opened MinHash

  /** A line as both passes see it after `strip()`, when it takes part:
      non-empty with non-whitespace ends. */
  predicate Stripped(s: string)
  {
    |s| > 0 && !IsSpace(s[0]) && !IsSpace(s[|s| - 1])
  }

  /** The stripped, non-empty lines of one file, in order. */
  function Content(lines: seq<string>): (r: seq<string>)
    ensures |r| <= |lines|
  {
    if lines == [] then []
    else
      var s := Strip(lines[|lines| - 1]);
      Content(lines[..|lines| - 1]) + (if s == [] then [] else [s])
  }

  function Concat(parts: seq<seq<string>>): seq<string>
  {
    if parts == [] then [] else Concat(parts[..|parts| - 1]) + parts[|parts| - 1]
  }

  /** The lines the first pass counts, over all files in order. */
  function Corpus(files: seq<seq<string>>): seq<string>
  {
    Concat(seq(|files|, f requires 0 <= f < |files| => Content(files[f])))
  }

  /** The digests of `lines`, with multiplicity: `line_counts` as a bag. */
  function Hashes(lines: seq<string>, md5: string -> Digest): multiset<Digest>
  {
    if lines == [] then multiset{}
    else Hashes(lines[..|lines| - 1], md5) + multiset{md5(lines[|lines| - 1])}
  }

  /** The lines of `lines` whose digest occurs exactly once in `corpus`. */
  function KeepUnique(lines: seq<string>, corpus: seq<string>, md5: string -> Digest): (r: seq<string>)
    ensures |r| <= |lines|
  {
    if lines == [] then []
    else
      var s := lines[|lines| - 1];
      KeepUnique(lines[..|lines| - 1], corpus, md5) + (if Hashes(corpus, md5)[md5(s)] == 1 then [s] else [])
  }

  /** What the two passes write: for every input file, its stripped lines
      whose digest occurs exactly once in the whole input. */
  function Deduplicated(files: seq<seq<string>>, md5: string -> Digest): seq<seq<string>>
  {
    seq(|files|, f requires 0 <= f < |files| => KeepUnique(Content(files[f]), Corpus(files), md5))
  }

  /** `line_counts` after counting the lines of `seen` in order. */
  function Tally(seen: seq<string>, md5: string -> Digest): map<Digest, nat>
  {
    if seen == [] then map[]
    else
      var counts := Tally(seen[..|seen| - 1], md5);
      var h := md5(seen[|seen| - 1]);
      counts[h := (if h in counts then counts[h] else 0) + 1]
  }

  lemma TallyStep(seen: seq<string>, line: string, md5: string -> Digest)
    ensures var counts := Tally(seen, md5);
      var h := md5(line);
      Tally(seen + [line], md5) == counts[h := (if h in counts then counts[h] else 0) + 1]
  {
    assert (seen + [line])[..|seen|] == seen;
  }

  /** The tally holds exactly the digests of the counted lines, each with
      its number of occurrences. */
  lemma {:induction false} TallyCounts(seen: seq<string>, md5: string -> Digest)
    ensures forall h :: h in Tally(seen, md5) <==> h in Hashes(seen, md5)
    ensures forall h :: h in Tally(seen, md5) ==> Tally(seen, md5)[h] == Hashes(seen, md5)[h]
    decreases |seen|
  {
    if seen != [] {
      TallyCounts(seen[..|seen| - 1], md5);
    }
  }

  /** The first pass: `line_counts`, the number of stripped non-empty lines
      of all files with each digest. */
  method CountLines(files: seq<seq<string>>, md5: string -> Digest) returns (counts: map<Digest, nat>)
    ensures counts == Tally(Corpus(files), md5)
    ensures forall h :: h in counts <==> h in Hashes(Corpus(files), md5)
    ensures forall h :: h in counts ==> counts[h] == Hashes(Corpus(files), md5)[h]
  {
    counts := map[];
    var f := 0;
    while f < |files|
      invariant f <= |files|
      invariant counts == Tally(Corpus(files[..f]), md5)
    {
      counts := CountFile(files[f], md5, counts, Corpus(files[..f]));
      CorpusStep(files, f);
      f := f + 1;
    }
    assert files[..|files|] == files;
    TallyCounts(Corpus(files), md5);
  }

  /** The inner loop of the first pass, over the lines of one file. */
  method CountFile(lines: seq<string>, md5: string -> Digest, counts: map<Digest, nat>, ghost before: seq<string>)
    returns (counts': map<Digest, nat>)
    requires counts == Tally(before, md5)
    ensures counts' == Tally(before + Content(lines), md5)
  {
    counts' := counts;
    var k := 0;
    NoLinesYet(lines, before);
    while k < |lines|
      invariant k <= |lines|
      invariant counts' == Tally(before + Content(lines[..k]), md5)
    {
      CountLineStep(lines, k, before, md5);
      counts' := CountLine(counts', lines[k], md5);
      k := k + 1;
    }
    assert lines[..|lines|] == lines;
  }

  /** The body of the first pass's inner loop: strip the line and, unless
      it is empty, add one to the count of its digest. */
  function CountLine(counts: map<Digest, nat>, raw: string, md5: string -> Digest): map<Digest, nat>
  {
    var line := Strip(raw);
    var h := md5(line);
    if line == [] then counts else counts[h := (if h in counts then counts[h] else 0) + 1]
  }

  lemma NoLinesYet(lines: seq<string>, before: seq<string>)
    ensures before + Content(lines[..0]) == before
  {
    assert lines[..0] == [];
  }

  /** One step of the first pass's inner loop. */
  lemma CountLineStep(lines: seq<string>, k: nat, before: seq<string>, md5: string -> Digest)
    requires k < |lines|
    ensures Tally(before + Content(lines[..k + 1]), md5)
      == CountLine(Tally(before + Content(lines[..k]), md5), lines[k], md5)
  {
    var line := Strip(lines[k]);
    var seen := before + Content(lines[..k]);
    ContentStep(lines, k);
    if line != [] {
      TallyStep(seen, line, md5);
      assert before + Content(lines[..k + 1]) == seen + [line];
    } else {
      assert before + Content(lines[..k + 1]) == seen;
    }
  }

  /** One more line of a file adds its stripped form to the content, unless
      that is empty. */
  lemma ContentStep(lines: seq<string>, k: nat)
    requires k < |lines|
    ensures var s := Strip(lines[k]);
      Content(lines[..k + 1]) == Content(lines[..k]) + (if s == [] then [] else [s])
  {
    assert lines[..k + 1][..k] == lines[..k];
  }

  lemma CorpusStep(files: seq<seq<string>>, f: nat)
    requires f < |files|
    ensures Corpus(files[..f + 1]) == Corpus(files[..f]) + Content(files[f])
  {
    var parts := seq(f + 1, g requires 0 <= g < f + 1 => Content(files[..f + 1][g]));
    assert parts[..f] == seq(f, g requires 0 <= g < f => Content(files[..f][g]));
  }

  /** The second pass: every file's stripped non-empty lines whose count is
      1. */
  method WriteUnique(files: seq<seq<string>>, md5: string -> Digest, counts: map<Digest, nat>)
    returns (out: seq<seq<string>>)
    requires counts == Tally(Corpus(files), md5)
    ensures out == Deduplicated(files, md5)
  {
    var corpus := Corpus(files);
    out := [];
    var f := 0;
    while f < |files|
      invariant f <= |files| && |out| == f
      invariant forall g :: 0 <= g < f ==> out[g] == KeepUnique(Content(files[g]), corpus, md5)
    {
      forall s | s in Content(files[f]) ensures s in corpus {
        ContentInCorpus(files, f, s);
      }
      var written := WriteFile(files[f], md5, counts, corpus);
      out := out + [written];
      f := f + 1;
    }
  }

  /** The inner loop of the second pass. The lookup `line_counts[line_hash]`
      cannot fail: the line was counted by the first pass. */
  method WriteFile(lines: seq<string>, md5: string -> Digest, counts: map<Digest, nat>, ghost corpus: seq<string>)
    returns (written: seq<string>)
    requires counts == Tally(corpus, md5)
    requires forall s :: s in Content(lines) ==> s in corpus
    ensures written == KeepUnique(Content(lines), corpus, md5)
  {
    written := [];
    var k := 0;
    assert lines[..0] == [];
    while k < |lines|
      invariant k <= |lines|
      invariant written == KeepUnique(Content(lines[..k]), corpus, md5)
    {
      if Strip(lines[k]) != [] {
        LineCounted(lines, k, corpus, md5);
      }
      WriteLineStep(lines, k, corpus, md5);
      written := WriteLine(written, lines[k], md5, counts);
      k := k + 1;
    }
    assert lines[..|lines|] == lines;
  }

  /** One iteration of the second pass's inner loop: strip the line and
      write it when it is non-empty and its digest was counted once. */
  function WriteLine(written: seq<string>, raw: string, md5: string -> Digest, counts: map<Digest, nat>): seq<string>
    requires Strip(raw) != [] ==> md5(Strip(raw)) in counts
  {
    var line := Strip(raw);
    if line != [] && counts[md5(line)] == 1 then written + [line] else written
  }

  /** A line the second pass meets was counted by the first. */
  lemma LineCounted(lines: seq<string>, k: nat, corpus: seq<string>, md5: string -> Digest)
    requires k < |lines| && Strip(lines[k]) != []
    requires forall s :: s in Content(lines) ==> s in corpus
    ensures md5(Strip(lines[k])) in Tally(corpus, md5)
    ensures Tally(corpus, md5)[md5(Strip(lines[k]))] == Hashes(corpus, md5)[md5(Strip(lines[k]))]
  {
    ContentHas(lines, k);
    HashOfMember(corpus, md5, Strip(lines[k]));
    TallyCounts(corpus, md5);
  }

  /** One step of the second pass's inner loop. */
  lemma WriteLineStep(lines: seq<string>, k: nat, corpus: seq<string>, md5: string -> Digest)
    requires k < |lines|
    ensures var line := Strip(lines[k]);
      KeepUnique(Content(lines[..k + 1]), corpus, md5)
        == KeepUnique(Content(lines[..k]), corpus, md5)
          + if line != [] && Hashes(corpus, md5)[md5(line)] == 1 then [line] else []
  {
    var line := Strip(lines[k]);
    ContentStep(lines, k);
    if line != [] {
      KeepUniqueStep(Content(lines[..k]), line, corpus, md5);
    } else {
      assert Content(lines[..k + 1]) == Content(lines[..k]);
    }
  }

  lemma KeepUniqueStep(lines: seq<string>, s: string, corpus: seq<string>, md5: string -> Digest)
    ensures KeepUnique(lines + [s], corpus, md5)
      == KeepUnique(lines, corpus, md5) + (if Hashes(corpus, md5)[md5(s)] == 1 then [s] else [])
  {
    assert (lines + [s])[..|lines|] == lines;
  }

  /** `exact_deduplication(input_paths, output_dir)`: the lines written to
      each output file. */
  method ExactDeduplication(files: seq<seq<string>>, md5: string -> Digest) returns (out: seq<seq<string>>)
    ensures out == Deduplicated(files, md5)
  {
    var counts := CountLines(files, md5);
    out := WriteUnique(files, md5, counts);
  }

  lemma {:induction false} ContentHas(lines: seq<string>, k: nat)
    requires k < |lines| && Strip(lines[k]) != []
    ensures Strip(lines[k]) in Content(lines)
    decreases |lines|
  {
    if k < |lines| - 1 {
      assert lines[..|lines| - 1][k] == lines[k];
      ContentHas(lines[..|lines| - 1], k);
    }
  }

  lemma ContentInCorpus(files: seq<seq<string>>, f: nat, s: string)
    requires f < |files| && s in Content(files[f])
    ensures s in Corpus(files)
  {
    var parts := seq(|files|, g requires 0 <= g < |files| => Content(files[g]));
    ConcatHas(parts, f, s);
  }

  lemma {:induction false} ConcatHas(parts: seq<seq<string>>, f: nat, s: string)
    requires f < |parts| && s in parts[f]
    ensures s in Concat(parts)
    decreases |parts|
  {
    if f < |parts| - 1 {
      assert parts[..|parts| - 1][f] == parts[f];
      ConcatHas(parts[..|parts| - 1], f, s);
    }
  }

  lemma {:induction false} HashOfMember(lines: seq<string>, md5: string -> Digest, s: string)
    requires s in lines
    ensures md5(s) in Hashes(lines, md5)
    decreases |lines|
  {
    if lines[|lines| - 1] != s {
      assert s in lines[..|lines| - 1];
      HashOfMember(lines[..|lines| - 1], md5, s);
    }
  }

  lemma {:induction false} HashesAppend(a: seq<string>, b: seq<string>, md5: string -> Digest)
    ensures Hashes(a + b, md5) == Hashes(a, md5) + Hashes(b, md5)
    decreases |b|
  {
    if b == [] {
      assert a + b == a;
    } else {
      var b' := b[..|b| - 1];
      assert (a + b)[..|a + b| - 1] == a + b';
      assert (a + b)[|a + b| - 1] == b[|b| - 1];
      HashesAppend(a, b', md5);
    }
  }

  /** A line is kept exactly when it is one of the file's lines and its
      digest occurs once in the whole input. */
  lemma {:induction false} KeepUniqueMembers(lines: seq<string>, corpus: seq<string>, md5: string -> Digest, s: string)
    ensures s in KeepUnique(lines, corpus, md5) <==> s in lines && Hashes(corpus, md5)[md5(s)] == 1
    decreases |lines|
  {
    if lines != [] {
      var init := lines[..|lines| - 1];
      KeepUniqueMembers(init, corpus, md5, s);
      assert lines == init + [lines[|lines| - 1]];
    }
  }

  /** Every line that takes part is stripped and non-empty. */
  lemma {:induction false} ContentStripped(lines: seq<string>)
    ensures forall s :: s in Content(lines) ==> Stripped(s)
    decreases |lines|
  {
    if lines != [] {
      ContentStripped(lines[..|lines| - 1]);
      StripShape(lines[|lines| - 1]);
    }
  }

  /** The digests of a line's occurrences alone already fill its digest's
      count; other lines with the same digest only add to it. */
  lemma {:induction false} HashesCoverCount(lines: seq<string>, md5: string -> Digest, s: string)
    ensures Hashes(lines, md5)[md5(s)] >= multiset(lines)[s]
    decreases |lines|
  {
    if lines != [] {
      var init := lines[..|lines| - 1];
      HashesCoverCount(init, md5, s);
      assert lines == init + [lines[|lines| - 1]];
    }
  }

  /** `md5` has no collision among `lines`. */
  predicate Injective(lines: seq<string>, md5: string -> Digest)
  {
    forall a, b :: a in lines && b in lines && md5(a) == md5(b) ==> a == b
  }

  /** Without collisions a digest's count is the count of its line. */
  lemma {:induction false} HashesCountLine(lines: seq<string>, md5: string -> Digest, s: string)
    requires Injective(lines + [s], md5)
    ensures Hashes(lines, md5)[md5(s)] == multiset(lines)[s]
    decreases |lines|
  {
    if lines != [] {
      var init := lines[..|lines| - 1];
      assert forall a :: a in init + [s] ==> a in lines + [s];
      HashesCountLine(init, md5, s);
      assert lines == init + [lines[|lines| - 1]];
      assert lines[|lines| - 1] in lines + [s];
    }
  }

  /** Every line written occurs exactly once in the whole input, whatever
      the digests: a line seen twice is never written. */
  lemma WrittenLinesAreUnique(files: seq<seq<string>>, md5: string -> Digest, f: nat, s: string)
    requires f < |files|
    requires s in Deduplicated(files, md5)[f]
    ensures multiset(Corpus(files))[s] == 1
  {
    var corpus := Corpus(files);
    KeepUniqueMembers(Content(files[f]), corpus, md5, s);
    ContentInCorpus(files, f, s);
    HashesCoverCount(corpus, md5, s);
  }

  /** When no two different lines share a digest, every line that occurs
      exactly once in the whole input is written to its file's output. */
  lemma UniqueLinesAreWritten(files: seq<seq<string>>, md5: string -> Digest, f: nat, s: string)
    requires f < |files|
    requires Injective(Corpus(files), md5)
    requires s in Content(files[f]) && multiset(Corpus(files))[s] == 1
    ensures s in Deduplicated(files, md5)[f]
  {
    var corpus := Corpus(files);
    ContentInCorpus(files, f, s);
    assert forall a :: a in corpus + [s] ==> a in corpus;
    HashesCountLine(corpus, md5, s);
    KeepUniqueMembers(Content(files[f]), corpus, md5, s);
  }

  /** What an output file reads back as: every written line followed by its
      newline. */
  function Written(lines: seq<string>): seq<string>
  {
    seq(|lines|, k requires 0 <= k < |lines| => lines[k] + "\n")
  }

  /** Stripping the lines read back from an output file gives the lines
      that were written. */
  lemma {:induction false} ContentOfWritten(lines: seq<string>)
    requires forall s :: s in lines ==> Stripped(s)
    ensures Content(Written(lines)) == lines
    decreases |lines|
  {
    if lines != [] {
      var init := lines[..|lines| - 1];
      var last := lines[|lines| - 1];
      assert Written(lines)[..|lines| - 1] == Written(init);
      ContentOfWritten(init);
      assert last in lines;
      assert IsSpace('\n');
      StripPadded(last, "\n");
      assert lines == init + [last];
    }
  }

  lemma {:induction false} KeepUniqueHashes(lines: seq<string>, corpus: seq<string>, md5: string -> Digest)
    ensures Hashes(KeepUnique(lines, corpus, md5), md5) <= Hashes(lines, md5)
    decreases |lines|
  {
    if lines != [] {
      var init := lines[..|lines| - 1];
      var last := lines[|lines| - 1];
      KeepUniqueHashes(init, corpus, md5);
      var kept := KeepUnique(init, corpus, md5);
      assert Hashes(lines, md5) == Hashes(init, md5) + multiset{md5(last)};
      if Hashes(corpus, md5)[md5(last)] == 1 {
        assert KeepUnique(lines, corpus, md5) == kept + [last];
        HashesAppend(kept, [last], md5);
        assert Hashes([last], md5) == multiset{md5(last)} by {
          assert [last][..0] == [];
        }
      } else {
        assert KeepUnique(lines, corpus, md5) == kept + [];
        assert kept + [] == kept;
      }
    }
  }

  lemma {:induction false} ConcatHashes(a: seq<seq<string>>, b: seq<seq<string>>, md5: string -> Digest)
    requires |a| == |b|
    requires forall f :: 0 <= f < |a| ==> Hashes(a[f], md5) <= Hashes(b[f], md5)
    ensures Hashes(Concat(a), md5) <= Hashes(Concat(b), md5)
    decreases |a|
  {
    if a != [] {
      var n := |a| - 1;
      ConcatHashes(a[..n], b[..n], md5);
      HashesAppend(Concat(a[..n]), a[n], md5);
      HashesAppend(Concat(b[..n]), b[n], md5);
    }
  }

  lemma {:induction false} KeepUniqueKeepsAll(lines: seq<string>, corpus: seq<string>, md5: string -> Digest)
    requires forall s :: s in lines ==> Hashes(corpus, md5)[md5(s)] == 1
    ensures KeepUnique(lines, corpus, md5) == lines
    decreases |lines|
  {
    if lines != [] {
      var init := lines[..|lines| - 1];
      var last := lines[|lines| - 1];
      forall s | s in init ensures Hashes(corpus, md5)[md5(s)] == 1 {
        assert s in lines;
      }
      KeepUniqueKeepsAll(init, corpus, md5);
      assert last in lines;
      assert KeepUnique(lines, corpus, md5) == init + [last];
      assert lines == init + [last];
    }
  }

  /** Deduplicating the output files once more writes them unchanged. */
  lemma DeduplicationIdempotent(files: seq<seq<string>>, md5: string -> Digest)
    ensures var out := Deduplicated(files, md5);
      Deduplicated(seq(|out|, f requires 0 <= f < |out| => Written(out[f])), md5) == out
  {
    var out := Deduplicated(files, md5);
    var again := seq(|out|, f requires 0 <= f < |out| => Written(out[f]));
    var corpus := Corpus(files);
    var contents := seq(|files|, f requires 0 <= f < |files| => Content(files[f]));
    forall f | 0 <= f < |out|
      ensures Content(again[f]) == out[f]
    {
      ContentStripped(files[f]);
      forall s | s in out[f]
        ensures Stripped(s)
      {
        KeepUniqueMembers(Content(files[f]), corpus, md5, s);
      }
      ContentOfWritten(out[f]);
    }
    assert seq(|again|, f requires 0 <= f < |again| => Content(again[f])) == out;
    assert Corpus(again) == Concat(out);
    forall f | 0 <= f < |out|
      ensures Hashes(out[f], md5) <= Hashes(contents[f], md5)
    {
      KeepUniqueHashes(Content(files[f]), corpus, md5);
    }
    ConcatHashes(out, contents, md5);
    forall f | 0 <= f < |out|
      ensures KeepUnique(out[f], Concat(out), md5) == out[f]
    {
      forall s | s in out[f]
        ensures Hashes(Concat(out), md5)[md5(s)] == 1
      {
        KeepUniqueMembers(Content(files[f]), corpus, md5, s);
        ConcatHas(out, f, s);
        HashOfMember(Concat(out), md5, s);
      }
      KeepUniqueKeepsAll(out[f], Concat(out), md5);
    }
  }

  /** Two files sharing the line `y`, one of them with a blank line: only
      `x` and `z` are written. */
  lemma TwoFilesExample(md5: string -> Digest)
    requires md5("x") != md5("y") && md5("y") != md5("z") && md5("x") != md5("z")
    ensures Deduplicated([["x\n", "y\n"], ["y\n", "z\n", " \n"]], md5) == [["x"], ["z"]]
  {
    var files := [["x\n", "y\n"], ["y\n", "z\n", " \n"]];
    var corpus := ["x", "y", "y", "z"];
    ExampleContents();
    ExampleCorpus();
    ExampleKept(md5);
    var out := Deduplicated(files, md5);
    assert out[0] == KeepUnique(["x", "y"], corpus, md5);
    assert out[1] == KeepUnique(["y", "z"], corpus, md5);
  }

  lemma ExampleKept(md5: string -> Digest)
    requires md5("x") != md5("y") && md5("y") != md5("z") && md5("x") != md5("z")
    ensures KeepUnique(["x", "y"], ["x", "y", "y", "z"], md5) == ["x"]
    ensures KeepUnique(["y", "z"], ["x", "y", "y", "z"], md5) == ["z"]
  {
    var corpus := ["x", "y", "y", "z"];
    ExampleHashes(md5);
    assert ["x", "y"][..1] == ["x"];
    assert ["x"][..0] == [];
    assert ["y", "z"][..1] == ["y"];
    assert ["y"][..0] == [];
  }

  lemma ExampleLines()
    ensures Strip("x\n") == "x" && Strip("y\n") == "y" && Strip("z\n") == "z" && Strip(" \n") == []
  {
    assert IsSpace('\n') && IsSpace(' ');
    StripPadded("x", "\n");
    StripPadded("y", "\n");
    StripPadded("z", "\n");
    assert "x" + "\n" == "x\n" && "y" + "\n" == "y\n" && "z" + "\n" == "z\n";
    assert LStrip(" \n") == LStrip("\n") == LStrip([]);
  }

  lemma ExampleContents()
    ensures Content(["x\n", "y\n"]) == ["x", "y"]
    ensures Content(["y\n", "z\n", " \n"]) == ["y", "z"]
  {
    ExampleLines();
    assert ["x\n", "y\n"][..1] == ["x\n"];
    assert ["x\n"][..0] == [];
    assert Content(["x\n"]) == ["x"];
    assert ["y\n", "z\n", " \n"][..2] == ["y\n", "z\n"];
    assert ["y\n", "z\n"][..1] == ["y\n"];
    assert ["y\n"][..0] == [];
    assert Content(["y\n"]) == ["y"];
    assert Content(["y\n", "z\n"]) == ["y", "z"];
  }

  lemma ExampleCorpus()
    ensures Corpus([["x\n", "y\n"], ["y\n", "z\n", " \n"]]) == ["x", "y", "y", "z"]
  {
    var files := [["x\n", "y\n"], ["y\n", "z\n", " \n"]];
    ExampleContents();
    var parts := seq(|files|, f requires 0 <= f < |files| => Content(files[f]));
    assert parts == [["x", "y"], ["y", "z"]];
    assert parts[..1] == [["x", "y"]];
    assert parts[..1][..0] == [];
    assert Concat(parts[..1]) == ["x", "y"];
    assert Concat(parts) == ["x", "y"] + ["y", "z"];
  }

  lemma ExampleHashes(md5: string -> Digest)
    ensures Hashes(["x", "y", "y", "z"], md5) == multiset{md5("x"), md5("y"), md5("y"), md5("z")}
  {
    assert ["x", "y", "y", "z"][..3] == ["x", "y", "y"];
    assert ["x", "y", "y"][..2] == ["x", "y"];
    assert ["x", "y"][..1] == ["x"];
    assert ["x"][..0] == [];
    assert Hashes(["x"], md5) == multiset{md5("x")};
    assert Hashes(["x", "y"], md5) == multiset{md5("x"), md5("y")};
    assert Hashes(["x", "y", "y"], md5) == multiset{md5("x"), md5("y"), md5("y")};
  }
}
