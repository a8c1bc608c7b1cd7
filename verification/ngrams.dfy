/** `get_ngrams` (cs336_data/deduplication.py): the set of word shingles of a
    normalized text. */
module Shingles {
  import opened Text

  /** The shingle made of the `n` words starting at word `i`. */
  function Window(words: seq<string>, i: nat, n: nat): string
    requires i + n <= |words|
  {
    Join(words[i..i + n])
  }

  /** `get_ngrams(text, n)`: every run of `n` consecutive words, joined by
      single spaces, collected into a set. A text with fewer than `n` words
      has no shingle, and there are never more shingles than window
      positions. */
  function Ngrams(text: string, n: nat): (grams: set<string>)
    ensures |Split(text)| < n ==> grams == {}
    ensures |Split(text)| >= n ==> |grams| <= |Split(text)| - n + 1
  {
    var words := Split(text);
    if |words| < n then {}
    else
      WindowCount(words, n, |words| - n + 1);
      set i | 0 <= i < |words| - n + 1 :: Window(words, i, n)
  }

  lemma {:induction false} WindowCount(words: seq<string>, n: nat, k: nat)
    requires k + n <= |words| + 1
    ensures |set i | 0 <= i < k :: Window(words, i, n)| <= k
    decreases k
  {
    if k > 0 {
      WindowCount(words, n, k - 1);
      var prev := set i | 0 <= i < k - 1 :: Window(words, i, n);
      var all := set i | 0 <= i < k :: Window(words, i, n);
      assert all == prev + {Window(words, k - 1, n)};
    }
  }

  /** `ws` are the `n` consecutive words of `words` starting at word `i`. */
  predicate WordsAt(words: seq<string>, i: int, n: nat, ws: seq<string>)
  {
    0 <= i && i + n <= |words| && ws == words[i..i + n]
  }

  /** A string is a shingle of `text` exactly when it is in collapsed form and
      its words are `n` consecutive words of `text`: the shingle set loses no
      window and invents nothing else. */
  lemma NgramsCharacterization(text: string, n: nat, g: string)
    ensures g in Ngrams(text, n) <==>
      Collapsed(g) && exists i :: WordsAt(Split(text), i, n, Split(g))
  {
    if g in Ngrams(text, n) {
      NgramsSound(text, n, g);
    }
    if Collapsed(g) && exists i :: WordsAt(Split(text), i, n, Split(g)) {
      var i :| WordsAt(Split(text), i, n, Split(g));
      NgramsComplete(text, n, g, i);
    }
  }

  lemma NgramsSound(text: string, n: nat, g: string)
    requires g in Ngrams(text, n)
    ensures Collapsed(g) && exists i :: WordsAt(Split(text), i, n, Split(g))
  {
    var words := Split(text);
    var i :| 0 <= i < |words| - n + 1 && g == Window(words, i, n);
    SplitJoin(words[i..i + n]);
    JoinCollapsed(words[i..i + n]);
    assert WordsAt(words, i, n, Split(g));
  }

  lemma NgramsComplete(text: string, n: nat, g: string, i: int)
    requires Collapsed(g) && WordsAt(Split(text), i, n, Split(g))
    ensures g in Ngrams(text, n)
  {
    var words := Split(text);
    JoinSplitOfCollapsed(g);
    assert g == Window(words, i, n);
    assert |words| >= n;
    assert Ngrams(text, n) == set k | 0 <= k < |words| - n + 1 :: Window(words, k, n);
  }

  /** Every shingle holds exactly `n` words. */
  lemma ShingleHasNWords(text: string, n: nat, g: string)
    requires g in Ngrams(text, n)
    ensures |Split(g)| == n
  {
    NgramsCharacterization(text, n, g);
  }
}
