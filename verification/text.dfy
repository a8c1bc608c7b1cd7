/** The pieces of Python's `str` that the deduplication and quality-filter code
    relies on: the whitespace class of `str.isspace()`, `string.punctuation`,
    `str.split()` with no separator, `" ".join`, `str.strip()`, `str.rstrip()`
    and `str(i)` for a natural number. */
module Text {

  /** `str.isspace()`: the characters `split()`, `strip()` and the regex
      class `\s` treat as whitespace. */
  predicate IsSpace(c: char)
  {
    || ('\t' <= c <= '\r')
    || ('\U{1C}' <= c <= '\U{1F}')
    || c == ' '
    || c == '\U{85}'
    || c == '\U{A0}'
    || c == '\U{1680}'
    || ('\U{2000}' <= c <= '\U{200A}')
    || c == '\U{2028}'
    || c == '\U{2029}'
    || c == '\U{202F}'
    || c == '\U{205F}'
    || c == '\U{3000}'
  }

  /** Membership in `string.punctuation`, the 32 ASCII punctuation marks
      ``!"#$%&'()*+,-./:;<=>?@[\]^_`{|}~``. */
  predicate IsPunctuation(c: char)
  {
    || ('!' <= c <= '/')
    || (':' <= c <= '@')
    || ('[' <= c <= '`')
    || ('{' <= c <= '~')
  }

  /** A word as `split()` produces it: non-empty, without whitespace. */
  predicate IsWord(w: string)
  {
    |w| > 0 && forall i :: 0 <= i < |w| ==> !IsSpace(w[i])
  }

  /** Length of the longest whitespace-free prefix of `s`. */
  function WordLen(s: string): (k: nat)
    ensures k <= |s|
    ensures forall i :: 0 <= i < k ==> !IsSpace(s[i])
    ensures k < |s| ==> IsSpace(s[k])
  {
    if |s| == 0 || IsSpace(s[0]) then 0 else 1 + WordLen(s[1..])
  }

  /** `s.split()`: the maximal runs of non-whitespace characters, in order. */
  function Split(s: string): (ws: seq<string>)
    ensures forall i :: 0 <= i < |ws| ==> IsWord(ws[i])
    decreases |s|
  {
    if |s| == 0 then []
    else if IsSpace(s[0]) then Split(s[1..])
    else
      var k := WordLen(s);
      [s[..k]] + Split(s[k..])
  }

  /** Only whitespace. */
  predicate Blank(s: string)
  {
    forall i :: 0 <= i < |s| ==> IsSpace(s[i])
  }

  /** `seps[0] + ws[0] + seps[1] + ... + ws[n-1] + seps[n]`. */
  function Interleave(seps: seq<string>, ws: seq<string>): string
    requires |seps| == |ws| + 1
  {
    if |ws| == 0 then seps[0] else seps[0] + ws[0] + Interleave(seps[1..], ws[1..])
  }

  /** Whitespace-only separators, every one between two words non-empty. */
  predicate Separators(seps: seq<string>)
  {
    && (forall i :: 0 <= i < |seps| ==> Blank(seps[i]))
    && (forall i :: 0 < i < |seps| - 1 ==> |seps[i]| > 0)
  }

  /** The text is its words with whitespace between them, and at least one
      whitespace character between two neighbours: together with `IsWord`
      this fixes the cut points of `Split` at the maximal runs. */
  lemma {:induction false} SplitRebuild(s: string) returns (seps: seq<string>)
    ensures |seps| == |Split(s)| + 1 && Separators(seps)
    ensures |s| > 0 && IsSpace(s[0]) ==> |seps[0]| > 0
    ensures s == Interleave(seps, Split(s))
    decreases |s|
  {
    if |s| == 0 {
      seps := [[]];
    } else if IsSpace(s[0]) {
      var rest := SplitRebuild(s[1..]);
      seps := RebuildAfterSpace(s, rest);
    } else {
      var more := SplitRebuild(s[WordLen(s)..]);
      seps := RebuildAfterWord(s, more);
    }
  }

  /** A leading whitespace character joins the first separator. */
  lemma RebuildAfterSpace(s: string, rest: seq<string>) returns (seps: seq<string>)
    requires |s| > 0 && IsSpace(s[0])
    requires |rest| == |Split(s[1..])| + 1 && Separators(rest)
    requires s[1..] == Interleave(rest, Split(s[1..]))
    ensures |seps| == |Split(s)| + 1 && Separators(seps) && |seps[0]| > 0
    ensures s == Interleave(seps, Split(s))
  {
    seps := [[s[0]] + rest[0]] + rest[1..];
    SeparatorsWiden(s[0], rest);
    InterleaveWiden(s[0], rest, Split(s[1..]));
    assert s == [s[0]] + s[1..];
  }

  /** A leading word gets an empty separator in front of it. */
  lemma RebuildAfterWord(s: string, more: seq<string>) returns (seps: seq<string>)
    requires |s| > 0 && !IsSpace(s[0])
    requires |more| == |Split(s[WordLen(s)..])| + 1 && Separators(more)
    requires |s[WordLen(s)..]| > 0 ==> |more[0]| > 0
    requires s[WordLen(s)..] == Interleave(more, Split(s[WordLen(s)..]))
    ensures |seps| == |Split(s)| + 1 && Separators(seps)
    ensures s == Interleave(seps, Split(s))
  {
    var k := WordLen(s);
    seps := [[]] + more;
    SeparatorsAfterWord(more, k < |s|);
    InterleaveCons([], s[..k], more, Split(s[k..]));
    assert s == s[..k] + s[k..];
  }

  lemma SeparatorsWiden(c: char, seps: seq<string>)
    requires IsSpace(c) && |seps| > 0 && Separators(seps)
    ensures Separators([[c] + seps[0]] + seps[1..])
  {
    var r := [[c] + seps[0]] + seps[1..];
    forall i | 0 <= i < |r| ensures Blank(r[i]) {
      if i > 0 {
        assert r[i] == seps[i];
      }
    }
    forall i | 0 < i < |r| - 1 ensures |r[i]| > 0 {
      assert r[i] == seps[i];
    }
  }

  lemma InterleaveWiden(c: char, seps: seq<string>, ws: seq<string>)
    requires |seps| == |ws| + 1
    ensures Interleave([[c] + seps[0]] + seps[1..], ws) == [c] + Interleave(seps, ws)
  {
    var r := [[c] + seps[0]] + seps[1..];
    assert r[1..] == seps[1..];
  }

  /** An empty separator in front of a word, followed by separators of a
      rest that starts with whitespace whenever it holds a word. */
  lemma SeparatorsAfterWord(more: seq<string>, spaced: bool)
    requires |more| > 0 && Separators(more)
    requires |more| > 1 ==> spaced
    requires spaced ==> |more[0]| > 0
    ensures Separators([[]] + more)
  {
    var r := [[]] + more;
    forall i | 0 <= i < |r| ensures Blank(r[i]) {
      if i > 0 {
        assert r[i] == more[i - 1];
      }
    }
    forall i | 0 < i < |r| - 1 ensures |r[i]| > 0 {
      assert r[i] == more[i - 1];
    }
  }

  lemma InterleaveCons(sep: string, w: string, seps: seq<string>, ws: seq<string>)
    requires |seps| == |ws| + 1
    ensures Interleave([sep] + seps, [w] + ws) == sep + w + Interleave(seps, ws)
  {
    assert ([sep] + seps)[1..] == seps;
    assert ([w] + ws)[1..] == ws;
  }

  /** `" ".join(ws)`. */
  function Join(ws: seq<string>): string
  {
    if |ws| == 0 then []
    else if |ws| == 1 then ws[0]
    else ws[0] + " " + Join(ws[1..])
  }

  /** The shape `" ".join(s.split())` produces: no leading or trailing
      whitespace, and every whitespace character is a single `' '` between two
      non-whitespace characters. */
  predicate Collapsed(t: string)
  {
    forall i :: 0 <= i < |t| && IsSpace(t[i]) ==>
      && t[i] == ' '
      && 0 < i < |t| - 1
      && !IsSpace(t[i - 1])
      && !IsSpace(t[i + 1])
  }

  /** A word is its own longest whitespace-free prefix whatever follows it,
      as long as that starts with whitespace. */
  lemma {:induction false} WordLenOfWord(w: string, rest: string)
    requires forall i :: 0 <= i < |w| ==> !IsSpace(w[i])
    requires |rest| == 0 || IsSpace(rest[0])
    ensures WordLen(w + rest) == |w|
    decreases |w|
  {
    if |w| == 0 {
      assert w + rest == rest;
    } else {
      assert (w + rest)[1..] == w[1..] + rest;
      WordLenOfWord(w[1..], rest);
    }
  }

  /** Splitting a joined list of words gives the words back. */
  lemma {:induction false} SplitJoin(ws: seq<string>)
    requires forall i :: 0 <= i < |ws| ==> IsWord(ws[i])
    ensures Split(Join(ws)) == ws
    decreases |ws|
  {
    if |ws| == 0 {
    } else if |ws| == 1 {
      WordLenOfWord(ws[0], []);
      assert ws[0][|ws[0]|..] == [];
      assert ws[0][..|ws[0]|] == ws[0];
    } else {
      var w := ws[0];
      var tail := Join(ws[1..]);
      var s := w + " " + tail;
      assert s == w + (" " + tail);
      WordLenOfWord(w, " " + tail);
      assert s[..|w|] == w;
      assert s[|w|..] == " " + tail;
      assert (" " + tail)[1..] == tail;
      SplitJoin(ws[1..]);
      assert Split(s) == [w] + Split(" " + tail);
      assert [w] + ws[1..] == ws;
    }
  }

  /** Joining words always yields the collapsed shape. */
  lemma {:induction false} JoinCollapsed(ws: seq<string>)
    requires forall i :: 0 <= i < |ws| ==> IsWord(ws[i])
    ensures Collapsed(Join(ws))
    ensures |ws| > 0 ==> |Join(ws)| > 0 && !IsSpace(Join(ws)[0])
    decreases |ws|
  {
    if |ws| > 1 {
      var w := ws[0];
      var tail := Join(ws[1..]);
      JoinCollapsed(ws[1..]);
      var t := w + " " + tail;
      assert Join(ws) == t;
      forall i | 0 <= i < |t| && IsSpace(t[i])
        ensures t[i] == ' ' && 0 < i < |t| - 1 && !IsSpace(t[i - 1]) && !IsSpace(t[i + 1])
      {
        if i == |w| {
          assert t[i + 1] == tail[0];
          assert t[i - 1] == w[|w| - 1];
        } else if i > |w| {
          var j := i - |w| - 1;
          assert t[i] == tail[j];
          if j == 0 {
            assert false;
          }
          assert t[i - 1] == tail[j - 1];
          assert t[i + 1] == tail[j + 1];
        }
      }
    }
  }

  /** A collapsed string is exactly what `" ".join(t.split())` gives back
      unchanged: collapsing whitespace is idempotent, and its results are
      precisely the collapsed strings. */
  lemma CollapsedIffFixed(t: string)
    ensures Collapsed(t) <==> Join(Split(t)) == t
  {
    if Collapsed(t) {
      JoinSplitOfCollapsed(t);
    } else {
      JoinCollapsed(Split(t));
    }
  }

  /** What follows a whitespace character of a collapsed string is again
      collapsed and starts with a non-whitespace character. */
  lemma CollapsedAfterSpace(t: string, k: nat)
    requires Collapsed(t)
    requires k < |t| && IsSpace(t[k])
    ensures k + 1 < |t| && !IsSpace(t[k + 1])
    ensures Collapsed(t[k + 1..])
  {
    var rest := t[k + 1..];
    forall i | 0 <= i < |rest| && IsSpace(rest[i])
      ensures rest[i] == ' ' && 0 < i < |rest| - 1 && !IsSpace(rest[i - 1]) && !IsSpace(rest[i + 1])
    {
      assert rest[i] == t[k + 1 + i];
      assert rest[i + 1] == t[k + 2 + i];
      assert rest[i - 1] == t[k + i];
    }
  }

  lemma {:induction false} JoinSplitOfCollapsed(t: string)
    requires Collapsed(t)
    ensures Join(Split(t)) == t
    decreases |t|
  {
    if |t| > 0 {
      var k := WordLen(t);
      if k == |t| {
        assert t[k..] == [];
        assert t[..k] == t;
      } else {
        var ws := SplitAfterWord(t, k);
        JoinSplitOfCollapsed(t[k + 1..]);
        JoinCons(t[..k], ws);
      }
    }
  }

  /** In a collapsed string, the first word is followed by one space and
      then by at least one more word. */
  lemma SplitAfterWord(t: string, k: nat) returns (ws: seq<string>)
    requires Collapsed(t) && |t| > 0
    requires k == WordLen(t) && k < |t|
    ensures ws == Split(t[k + 1..]) && |ws| > 0
    ensures Split(t) == [t[..k]] + ws
    ensures Collapsed(t[k + 1..]) && t == t[..k] + " " + t[k + 1..]
  {
    CollapsedAfterSpace(t, k);
    var rest := t[k + 1..];
    assert t == t[..k] + [t[k]] + rest;
    assert t[k..][1..] == rest;
    ws := Split(rest);
    assert ws == [rest[..WordLen(rest)]] + Split(rest[WordLen(rest)..]);
  }

  /** Joining a word in front of a non-empty list puts one space between. */
  lemma JoinCons(w: string, ws: seq<string>)
    requires |ws| > 0
    ensures Join([w] + ws) == w + " " + Join(ws)
  {
    assert ([w] + ws)[1..] == ws;
  }

  /** Every character of `s` satisfies `p`. */
  predicate AllChars(s: string, p: char -> bool)
  {
    forall i :: 0 <= i < |s| ==> p(s[i])
  }

  /** The words `split()` returns are made of characters of the text. */
  lemma {:induction false} SplitAllChars(s: string, p: char -> bool)
    requires AllChars(s, p)
    ensures forall i :: 0 <= i < |Split(s)| ==> AllChars(Split(s)[i], p)
    decreases |s|
  {
    if |s| > 0 {
      if IsSpace(s[0]) {
        SplitAllChars(s[1..], p);
      } else {
        var k := WordLen(s);
        SplitAllChars(s[k..], p);
        var ws := Split(s);
        assert ws == [s[..k]] + Split(s[k..]);
        forall i | 0 <= i < |ws|
          ensures AllChars(ws[i], p)
        {
          if i > 0 {
            assert ws[i] == Split(s[k..])[i - 1];
          }
        }
      }
    }
  }

  /** `" ".join` adds nothing but `' '` to the characters of its words. */
  lemma {:induction false} JoinAllChars(ws: seq<string>, p: char -> bool)
    requires p(' ')
    requires forall i :: 0 <= i < |ws| ==> AllChars(ws[i], p)
    ensures AllChars(Join(ws), p)
    decreases |ws|
  {
    if |ws| > 1 {
      JoinAllChars(ws[1..], p);
      var t := ws[0] + " " + Join(ws[1..]);
      forall i | 0 <= i < |t|
        ensures p(t[i])
      {
        if i < |ws[0]| {
          assert t[i] == ws[0][i];
        } else if i > |ws[0]| {
          assert t[i] == Join(ws[1..])[i - |ws[0]| - 1];
        }
      }
    }
  }

  /** Number of maximal non-whitespace runs of `s`, counted by a scan that
      remembers whether the previous character was whitespace: a run starts
      at every non-whitespace character that follows whitespace or the start. */
  function RunStarts(s: string, afterSpace: bool): nat
  {
    if |s| == 0 then 0
    else (if afterSpace && !IsSpace(s[0]) then 1 else 0) + RunStarts(s[1..], IsSpace(s[0]))
  }

  function RunCount(s: string): nat
  {
    RunStarts(s, true)
  }

  /** Number of non-whitespace characters of `s`. */
  function NonSpaceCount(s: string): nat
  {
    if |s| == 0 then 0 else (if IsSpace(s[0]) then 0 else 1) + NonSpaceCount(s[1..])
  }

  /** Sum of the lengths of a list of strings. */
  function TotalLength(ws: seq<string>): nat
  {
    if |ws| == 0 then 0 else |ws[0]| + TotalLength(ws[1..])
  }

  lemma {:induction false} RunStartsSkipWord(w: string, rest: string)
    requires forall i :: 0 <= i < |w| ==> !IsSpace(w[i])
    requires |rest| == 0 || IsSpace(rest[0])
    ensures RunStarts(w + rest, false) == RunStarts(rest, true)
    ensures NonSpaceCount(w + rest) == |w| + NonSpaceCount(rest)
    decreases |w|
  {
    if |w| == 0 {
      assert w + rest == rest;
    } else {
      assert (w + rest)[1..] == w[1..] + rest;
      RunStartsSkipWord(w[1..], rest);
    }
  }

  /** `split()` returns one word per maximal non-whitespace run, and the words
      together hold every non-whitespace character of the text. */
  lemma {:induction false} SplitCounts(s: string)
    ensures |Split(s)| == RunCount(s)
    ensures TotalLength(Split(s)) == NonSpaceCount(s)
    decreases |s|
  {
    if |s| > 0 {
      if IsSpace(s[0]) {
        SplitCounts(s[1..]);
      } else {
        var k := WordLen(s);
        assert s == s[..k] + s[k..];
        RunStartsSkipWord(s[..k], s[k..]);
        assert RunStarts(s, true) == 1 + RunStarts(s[1..], false);
        assert s[1..] == s[1..k] + s[k..];
        RunStartsSkipWord(s[1..k], s[k..]);
        SplitCounts(s[k..]);
        var ws := Split(s);
        assert ws == [s[..k]] + Split(s[k..]);
        assert ws[1..] == Split(s[k..]);
      }
    }
  }

  /** `s.strip()`: `s` without its leading and trailing whitespace. */
  function Strip(s: string): string
  {
    RStrip(LStrip(s))
  }

  /** What `strip` returns is an infix of its argument with non-whitespace
      ends, and all it removed is whitespace. */
  lemma StripShape(s: string)
    ensures var r := Strip(s);
      && (|r| > 0 ==> !IsSpace(r[0]) && !IsSpace(r[|r| - 1]))
      && StrippedAt(s, r, |s| - |LStrip(s)|)
  {
    LStripShape(s);
    RStripShape(LStrip(s));
  }

  /** `r` is the infix of `s` at offset `i`, and everything of `s` outside it
      is whitespace. */
  predicate StrippedAt(s: string, r: string, i: int)
  {
    && 0 <= i <= |s| - |r|
    && s[i..i + |r|] == r
    && (forall k :: 0 <= k < i ==> IsSpace(s[k]))
    && (forall k :: i + |r| <= k < |s| ==> IsSpace(s[k]))
  }

  /** A string with non-whitespace ends is what `strip` returns for it
      followed by any whitespace, e.g. its line terminator. */
  lemma StripPadded(s: string, pad: string)
    requires |s| > 0 && !IsSpace(s[0]) && !IsSpace(s[|s| - 1])
    requires forall k :: 0 <= k < |pad| ==> IsSpace(pad[k])
    ensures Strip(s + pad) == s
  {
    var t := s + pad;
    var r := Strip(t);
    StripShape(t);
    var i := |t| - |LStrip(t)|;
    assert t[0] == s[0] && t[|s| - 1] == s[|s| - 1];
    assert i == 0;
    assert |r| == |s|;
    assert r == t[..|s|] == s;
  }

  /** `s.lstrip()`. */
  function LStrip(s: string): string
  {
    if |s| > 0 && IsSpace(s[0]) then LStrip(s[1..]) else s
  }

  /** `lstrip` removes a whitespace prefix and stops at the first
      non-whitespace character. */
  lemma {:induction false} LStripShape(s: string)
    ensures var r := LStrip(s);
      && (|r| > 0 ==> !IsSpace(r[0]))
      && |r| <= |s| && r == s[|s| - |r|..]
      && (forall k :: 0 <= k < |s| - |r| ==> IsSpace(s[k]))
  {
    if |s| > 0 && IsSpace(s[0]) {
      LStripShape(s[1..]);
    }
  }

  /** `s.rstrip()`. */
  function RStrip(s: string): string
  {
    if |s| > 0 && IsSpace(s[|s| - 1]) then RStrip(s[..|s| - 1]) else s
  }

  /** `rstrip` removes a whitespace suffix and stops at the last
      non-whitespace character. */
  lemma {:induction false} RStripShape(s: string)
    ensures var r := RStrip(s);
      && (|r| > 0 ==> !IsSpace(r[|r| - 1]))
      && |r| <= |s| && r == s[..|r|]
      && (forall k :: |r| <= k < |s| ==> IsSpace(s[k]))
  {
    if |s| > 0 && IsSpace(s[|s| - 1]) {
      RStripShape(s[..|s| - 1]);
    }
  }

  /** The decimal digit for `d < 10`. */
  function Digit(d: nat): char
    requires d < 10
  {
    ['0', '1', '2', '3', '4', '5', '6', '7', '8', '9'][d]
  }

  function DigitValue(c: char): nat
  {
    if '0' <= c <= '9' then (c as int - '0' as int) else 0
  }

  /** `str(i)` for a natural number `i`: its decimal representation. */
  function DecimalString(i: nat): (s: string)
    ensures |s| > 0
    ensures forall k :: 0 <= k < |s| ==> '0' <= s[k] <= '9'
  {
    if i < 10 then [Digit(i)] else DecimalString(i / 10) + [Digit(i % 10)]
  }

  /** Reads a string of decimal digits back as a number. */
  function ParseDecimal(s: string): nat
  {
    if |s| == 0 then 0 else 10 * ParseDecimal(s[..|s| - 1]) + DigitValue(s[|s| - 1])
  }

  /** `str(i)` loses no information: reading it back gives `i`. */
  lemma {:induction false} DecimalRoundTrip(i: nat)
    ensures ParseDecimal(DecimalString(i)) == i
    decreases i
  {
    if i >= 10 {
      DecimalRoundTrip(i / 10);
      var s := DecimalString(i);
      assert s[..|s| - 1] == DecimalString(i / 10);
    }
  }
}
