/** `gopher_quality_filters` (cs336_data/quality_classifier.py): four counting
    rules over the words and lines of a document. Python's float division is
    replaced by exact rational division. */
module Gopher {
  import opened Text

  /** The line boundaries of `str.splitlines`. */
  predicate IsLineBreak(c: char)
  {
    || c == '\n' || c == '\r' || c == '\U{0B}' || c == '\U{0C}'
    || c == '\U{1C}' || c == '\U{1D}' || c == '\U{1E}'
    || c == '\U{85}' || c == '\U{2028}' || c == '\U{2029}'
  }

  /** Length of the longest break-free prefix of `s`. */
  function LineLen(s: string): (k: nat)
    ensures k <= |s|
    ensures forall i :: 0 <= i < k ==> !IsLineBreak(s[i])
    ensures k < |s| ==> IsLineBreak(s[k])
  {
    if |s| == 0 || IsLineBreak(s[0]) then 0 else 1 + LineLen(s[1..])
  }

  /** `s.splitlines()`: the lines of `s` without their terminators, where
      `\r\n` is one terminator and a final terminator opens no empty line. */
  function SplitLines(s: string): (lines: seq<string>)
    ensures forall l :: l in lines ==> forall i :: 0 <= i < |l| ==> !IsLineBreak(l[i])
    ensures |lines| <= |s|
    decreases |s|
  {
    if s == [] then []
    else
      var k := LineLen(s);
      if k == |s| then [s]
      else
        [s[..k]] + SplitLines(s[NextStart(s, k)..])
  }

  /** The text of `lines`, each followed by a newline. */
  function Terminated(lines: seq<string>): string
  {
    if lines == [] then [] else lines[0] + "\n" + Terminated(lines[1..])
  }

  lemma {:induction false} LineLenOfLine(l: string, rest: string)
    requires forall i :: 0 <= i < |l| ==> !IsLineBreak(l[i])
    ensures LineLen(l + "\n" + rest) == |l|
    decreases |l|
  {
    if l != [] {
      assert (l + "\n" + rest)[1..] == l[1..] + "\n" + rest;
      LineLenOfLine(l[1..], rest);
    }
  }

  /** Lines without breaks, each written with a newline, split back into
      themselves. */
  lemma {:induction false} SplitLinesTerminated(lines: seq<string>)
    requires forall j :: 0 <= j < |lines| ==> forall i :: 0 <= i < |lines[j]| ==> !IsLineBreak(lines[j][i])
    ensures SplitLines(Terminated(lines)) == lines
    decreases |lines|
  {
    if lines != [] {
      var l := lines[0];
      var rest := Terminated(lines[1..]);
      var s := Terminated(lines);
      assert s == l + "\n" + rest;
      LineLenOfLine(l, rest);
      assert s[|l|] == '\n';
      assert s[..|l|] == l;
      assert s[|l| + 1..] == rest;
      SplitLinesTerminated(lines[1..]);
    }
  }

  /** The number of line boundaries in `s`, scanning one character at a
      time, with `\r\n` counted as one boundary. */
  function Boundaries(s: string): nat
  {
    if s == [] then 0
    else if s[0] == '\r' && |s| > 1 && s[1] == '\n' then 1 + Boundaries(s[2..])
    else (if IsLineBreak(s[0]) then 1 else 0) + Boundaries(s[1..])
  }

  /** The last character of `s` is a line boundary. */
  predicate EndsInBreak(s: string)
  {
    |s| > 0 && IsLineBreak(s[|s| - 1])
  }

  /** `s` with every line-boundary character removed. */
  function Unbroken(s: string): string
  {
    if s == [] then []
    else (if IsLineBreak(s[0]) then [] else [s[0]]) + Unbroken(s[1..])
  }

  /** `''.join(lines)`. */
  function Flatten(lines: seq<string>): string
  {
    if lines == [] then [] else lines[0] + Flatten(lines[1..])
  }

  /** `splitlines` yields one line per boundary, plus one for a final line
      without a terminator. */
  lemma {:induction false} SplitLinesCount(s: string)
    ensures |SplitLines(s)| == Boundaries(s) + (if s != [] && !EndsInBreak(s) then 1 else 0)
    decreases |s|
  {
    if s != [] {
      var k := LineLen(s);
      SkipLine(s, k);
      if k == |s| {
        LastLine(s);
      } else {
        var next := NextLine(s, k);
        SplitLinesCount(s[next..]);
      }
    }
  }

  /** A text without boundaries is one line. */
  lemma LastLine(s: string)
    requires s != [] && LineLen(s) == |s|
    ensures |SplitLines(s)| == 1 && Boundaries(s[|s|..]) == 0 && !EndsInBreak(s)
  {
    assert s[|s|..] == [];
  }

  /** Where the text after the first line's terminator starts. */
  function NextStart(s: string, k: nat): (next: nat)
    requires k < |s|
    ensures k < next <= |s|
  {
    if s[k] == '\r' && k + 1 < |s| && s[k + 1] == '\n' then k + 2 else k + 1
  }

  /** After the first line and its terminator, the rest of the text holds
      the remaining lines, and the terminator is one boundary. */
  lemma NextLine(s: string, k: nat) returns (next: nat)
    requires s != [] && k == LineLen(s) && k < |s|
    ensures next == NextStart(s, k)
    ensures |SplitLines(s)| == 1 + |SplitLines(s[next..])|
    ensures Boundaries(s[k..]) == 1 + Boundaries(s[next..])
    ensures EndsInBreak(s) <==> (s[next..] == [] || EndsInBreak(s[next..]))
  {
    next := NextStart(s, k);
    NextLines(s, k);
    BreakStep(s, k);
    NextEnds(s, k);
  }

  lemma NextLines(s: string, k: nat)
    requires s != [] && k == LineLen(s) && k < |s|
    ensures SplitLines(s) == [s[..k]] + SplitLines(s[NextStart(s, k)..])
  {
  }

  lemma NextEnds(s: string, k: nat)
    requires k < |s| && IsLineBreak(s[k])
    ensures var rest := s[NextStart(s, k)..];
      EndsInBreak(s) <==> (rest == [] || EndsInBreak(rest))
  {
    var next := NextStart(s, k);
    var rest := s[next..];
    if rest != [] {
      assert s[|s| - 1] == rest[|rest| - 1];
    } else {
      assert IsLineBreak(s[next - 1]);
    }
  }

  /** The lines `splitlines` yields hold exactly the characters of the text
      that are not boundaries, in order. */
  lemma {:induction false} SplitLinesContent(s: string)
    ensures Flatten(SplitLines(s)) == Unbroken(s)
    decreases |s|
  {
    if s != [] {
      var k := LineLen(s);
      SkipLine(s, k);
      if k == |s| {
        assert s[k..] == [] && s[..k] == s;
        assert Flatten([s]) == s + Flatten([]);
      } else {
        var next := NextStart(s, k);
        BreakStep(s, k);
        var rest := s[next..];
        SplitLinesContent(rest);
        var lines := SplitLines(s);
        assert lines[1..] == SplitLines(rest);
      }
    }
  }

  /** What ends a line: one boundary character, or `\r\n`. */
  predicate Terminator(t: string)
  {
    (|t| == 1 && IsLineBreak(t[0])) || t == "\r\n"
  }

  /** Every line followed by its terminator, in order. */
  function Rejoin(lines: seq<string>, terms: seq<string>): string
    requires |lines| == |terms|
  {
    if lines == [] then [] else lines[0] + terms[0] + Rejoin(lines[1..], terms[1..])
  }

  /** Every terminator but the last is a real one; the last may be empty. */
  predicate Terminators(terms: seq<string>)
  {
    && (forall i :: 0 <= i < |terms| - 1 ==> Terminator(terms[i]))
    && (|terms| > 0 ==> terms[|terms| - 1] == [] || Terminator(terms[|terms| - 1]))
  }

  /** The text is its lines, each followed by a terminator; only the last
      line may lack one. With the lines free of boundaries and
      `SplitLinesCount`, this fixes where `splitlines` cuts. */
  lemma {:induction false} SplitLinesRebuild(s: string) returns (terms: seq<string>)
    ensures |terms| == |SplitLines(s)| && Terminators(terms)
    ensures s == Rejoin(SplitLines(s), terms)
    decreases |s|
  {
    if s == [] {
      terms := [];
    } else {
      var k := LineLen(s);
      if k == |s| {
        terms := [[]];
        OneLine(s);
        assert Rejoin([s], terms) == s + [] + Rejoin([], []);
      } else {
        var next := NextStart(s, k);
        var more := SplitLinesRebuild(s[next..]);
        var term := s[k..next];
        NextLines(s, k);
        TerminatorAt(s, k);
        TerminatorsCons(term, more);
        terms := [term] + more;
        RejoinCons(s[..k], term, SplitLines(s[next..]), more);
      }
    }
  }

  /** A text without boundaries is a single line. */
  lemma OneLine(s: string)
    requires s != [] && LineLen(s) == |s|
    ensures SplitLines(s) == [s]
  {
  }

  /** The first line ends at a terminator, after which the rest begins. */
  lemma TerminatorAt(s: string, k: nat)
    requires k < |s| && IsLineBreak(s[k])
    ensures Terminator(s[k..NextStart(s, k)])
    ensures s == s[..k] + s[k..NextStart(s, k)] + s[NextStart(s, k)..]
  {
  }

  lemma TerminatorsCons(term: string, more: seq<string>)
    requires Terminator(term) && Terminators(more)
    ensures Terminators([term] + more)
  {
    var terms := [term] + more;
    forall i | 0 <= i < |terms| - 1 ensures Terminator(terms[i]) {
      if i > 0 {
        assert terms[i] == more[i - 1];
      }
    }
  }

  lemma RejoinCons(l: string, t: string, lines: seq<string>, terms: seq<string>)
    requires |lines| == |terms|
    ensures Rejoin([l] + lines, [t] + terms) == l + t + Rejoin(lines, terms)
  {
    assert ([l] + lines)[1..] == lines;
    assert ([t] + terms)[1..] == terms;
  }

  /** A boundary-free prefix adds no boundary and is kept whole. */
  lemma {:induction false} SkipLine(s: string, k: nat)
    requires k <= |s|
    requires forall i :: 0 <= i < k ==> !IsLineBreak(s[i])
    ensures Boundaries(s) == Boundaries(s[k..])
    ensures Unbroken(s) == s[..k] + Unbroken(s[k..])
    decreases k
  {
    if k > 0 {
      assert !IsLineBreak(s[0]);
      SkipLine(s[1..], k - 1);
      assert s[1..][k - 1..] == s[k..];
      assert s[..k] == [s[0]] + s[1..][..k - 1];
    }
  }

  /** A boundary, `\r\n` taken together, counts once and leaves nothing. */
  lemma BreakStep(s: string, k: nat)
    requires k < |s| && IsLineBreak(s[k])
    ensures Boundaries(s[k..]) == 1 + Boundaries(s[NextStart(s, k)..])
    ensures Unbroken(s[k..]) == Unbroken(s[NextStart(s, k)..])
  {
    var t := s[k..];
    assert t[1..] == s[k + 1..];
    if NextStart(s, k) == k + 2 {
      assert t[1..][1..] == t[2..] == s[k + 2..];
    }
  }

  /** `line.rstrip().endswith("...")`. */
  predicate EndsWithEllipsis(line: string)
  {
    var r := RStrip(line);
    |r| >= 3 && r[|r| - 3..] == "..."
  }

  function EllipsisCount(lines: seq<string>): (c: nat)
    ensures c <= |lines|
  {
    if lines == [] then 0 else (if EndsWithEllipsis(lines[0]) then 1 else 0) + EllipsisCount(lines[1..])
  }

  /** `re.search(r'[A-Za-z]', word)` finds a match. */
  predicate HasAsciiLetter(w: string)
  {
    exists i :: 0 <= i < |w| && ('A' <= w[i] <= 'Z' || 'a' <= w[i] <= 'z')
  }

  function AlphaCount(words: seq<string>): (c: nat)
    ensures c <= |words|
  {
    if words == [] then 0 else (if HasAsciiLetter(words[0]) then 1 else 0) + AlphaCount(words[1..])
  }

  /** The four rules over whole numbers, with the words counted as maximal
      runs of non-whitespace characters:
      - between 50 and 100000 words;
      - a mean word length between 3 and 10;
      - at most 30% of the lines ending in "..." (no rule without lines);
      - at least 80% of the words holding an ASCII letter. */
  predicate Passes(text: string)
  {
    var n := RunCount(text);
    var lines := SplitLines(text);
    && 50 <= n <= 100000
    && 3 * n <= NonSpaceCount(text) <= 10 * n
    && 10 * EllipsisCount(lines) <= 3 * |lines|
    && 5 * AlphaCount(Split(text)) >= 4 * n
  }

  /** Rule 2: `mean_word_length = total_chars / num_words` lies in [3, 10]. */
  function MeanLengthRule(totalChars: nat, numWords: nat): (ok: bool)
    requires numWords > 0
    ensures ok <==> 3 * numWords <= totalChars <= 10 * numWords
  {
    var mean := totalChars as real / numWords as real;
    RatioBelow(totalChars, numWords, 3, 1);
    RatioBelow(10, 1, totalChars, numWords);
    !(mean < 3.0 || mean > 10.0)
  }

  /** Rule 3: at most 30% of the lines end in "...", skipped without lines. */
  function EllipsisRule(lines: seq<string>): (ok: bool)
    ensures ok <==> 10 * EllipsisCount(lines) <= 3 * |lines|
  {
    var ellipsis := EllipsisCount(lines);
    if |lines| > 0 then
      RatioBelow(3, 10, ellipsis, |lines|);
      !(ellipsis as real / |lines| as real > 0.3)
    else true
  }

  /** Rule 4: at least 80% of the words hold an ASCII letter. */
  function AlphaRule(words: seq<string>): (ok: bool)
    requires |words| > 0
    ensures ok <==> 5 * AlphaCount(words) >= 4 * |words|
  {
    var alpha := AlphaCount(words);
    RatioBelow(alpha, |words|, 4, 5);
    !(alpha as real / |words| as real < 0.8)
  }

  /** `gopher_quality_filters(text)`: the rules are tried in order and the
      first that fails rejects. The result is true exactly when all four
      rules hold, so the order of the checks does not matter. */
  function GopherQualityFilters(text: string): (r: bool)
    ensures r <==> Passes(text)
  {
    var words := Split(text);
    var numWords := |words|;
    SplitCounts(text);
    if numWords < 50 || numWords > 100000 then false
    else if !MeanLengthRule(TotalLength(words), numWords) then false
    else if !EllipsisRule(SplitLines(text)) then false
    else if !AlphaRule(words) then false
    else true
  }

  /** Comparing two ratios is comparing the cross products. */
  lemma RatioBelow(a: nat, b: nat, c: nat, d: nat)
    requires b > 0 && d > 0
    ensures a as real / b as real < c as real / d as real <==> a * d < c * b
  {
    var x := a as real / b as real;
    var y := c as real / d as real;
    var bd := (b * d) as real;
    assert x * b as real == a as real;
    assert y * d as real == c as real;
    assert x * bd == (a * d) as real;
    assert y * bd == (c * b) as real;
    assert x < y <==> x * bd < y * bd;
  }
}
