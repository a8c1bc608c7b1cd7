/** `normalize_text` (cs336_data/deduplication.py): lower-case, canonical
    decomposition, removal of combining marks and of ASCII punctuation, then
    whitespace collapsed to single spaces. */
module Normalize {
  import opened Text

  /** The Unicode tables the normalizer consults. `fold(c)` stands for
      `unicodedata.normalize('NFD', c.lower())`, the lower-cased canonical
      decomposition of one character, and `combining(c)` for
      `unicodedata.combining(c) != 0`. */
  datatype Tables = Tables(fold: char -> string, combining: char -> bool)

  /** `text.lower()` followed by NFD, one character at a time. */
  function FoldAll(text: string, fold: char -> string): string
  {
    if |text| == 0 then [] else fold(text[0]) + FoldAll(text[1..], fold)
  }

  /** `''.join(c for c in text if not unicodedata.combining(c))`. */
  function DropCombining(s: string, combining: char -> bool): (r: string)
    ensures |r| <= |s|
    ensures forall i :: 0 <= i < |r| ==> !combining(r[i])
  {
    if |s| == 0 then []
    else (if combining(s[0]) then [] else [s[0]]) + DropCombining(s[1..], combining)
  }

  /** `text.translate(str.maketrans('', '', string.punctuation))`. */
  function DropPunctuation(s: string): (r: string)
    ensures |r| <= |s|
    ensures forall i :: 0 <= i < |r| ==> !IsPunctuation(r[i])
  {
    if |s| == 0 then []
    else (if IsPunctuation(s[0]) then [] else [s[0]]) + DropPunctuation(s[1..])
  }

  /** The text after case folding, decomposition and the two removals, just
      before whitespace is collapsed. */
  function Cleaned(text: string, t: Tables): string
  {
    DropPunctuation(DropCombining(FoldAll(text, t.fold), t.combining))
  }

  /** `normalize_text(text)`. Its result is collapsed (no leading, trailing or
      repeated whitespace, only `' '` between words), contains no punctuation
      and no combining mark, and has exactly the words of the cleaned text:
      collapsing whitespace loses and invents no word. */
  function NormalizeText(text: string, t: Tables): (r: string)
    ensures Collapsed(r)
    ensures forall i :: 0 <= i < |r| ==> !IsPunctuation(r[i])
    ensures forall i :: 0 <= i < |r| && r[i] != ' ' ==> !t.combining(r[i])
    ensures Split(r) == Split(Cleaned(text, t))
  {
    var cleaned := Cleaned(text, t);
    var ws := Split(cleaned);
    SplitJoin(ws);
    JoinCollapsed(ws);
    SplitAllChars(cleaned, c => !IsPunctuation(c));
    JoinAllChars(ws, c => !IsPunctuation(c));
    NoCombiningInCleaned(text, t);
    SplitAllChars(cleaned, c => c == ' ' || !t.combining(c));
    JoinAllChars(ws, c => c == ' ' || !t.combining(c));
    Join(ws)
  }

  lemma NoCombiningInCleaned(text: string, t: Tables)
    ensures AllChars(Cleaned(text, t), c => c == ' ' || !t.combining(c))
  {
    DropPunctuationKeeps(DropCombining(FoldAll(text, t.fold), t.combining), c => c == ' ' || !t.combining(c));
  }

  /** Removing combining marks works piecewise, so the kept characters stay
      in their order. */
  lemma {:induction false} DropCombiningAppend(a: string, b: string, combining: char -> bool)
    ensures DropCombining(a + b, combining) == DropCombining(a, combining) + DropCombining(b, combining)
    decreases |a|
  {
    if |a| == 0 {
      assert a + b == b;
    } else {
      assert (a + b)[1..] == a[1..] + b;
      DropCombiningAppend(a[1..], b, combining);
    }
  }

  /** Removing punctuation works piecewise, so the kept characters stay in
      their order. */
  lemma {:induction false} DropPunctuationAppend(a: string, b: string)
    ensures DropPunctuation(a + b) == DropPunctuation(a) + DropPunctuation(b)
    decreases |a|
  {
    if |a| == 0 {
      assert a + b == b;
    } else {
      assert (a + b)[1..] == a[1..] + b;
      DropPunctuationAppend(a[1..], b);
    }
  }

  /** Every character that is not a combining mark is kept as often as it
      occurs. */
  lemma {:induction false} DropCombiningCounts(s: string, combining: char -> bool)
    ensures forall c :: !combining(c) ==> multiset(DropCombining(s, combining))[c] == multiset(s)[c]
    decreases |s|
  {
    if |s| > 0 {
      DropCombiningCounts(s[1..], combining);
      assert s == [s[0]] + s[1..];
    }
  }

  /** Every character that is not a punctuation character is kept as often as it
      occurs. */
  lemma {:induction false} DropPunctuationCounts(s: string)
    ensures forall c :: !IsPunctuation(c) ==> multiset(DropPunctuation(s))[c] == multiset(s)[c]
    decreases |s|
  {
    if |s| > 0 {
      DropPunctuationCounts(s[1..]);
      assert s == [s[0]] + s[1..];
    }
  }

  /** Removing punctuation keeps any property every character had. */
  lemma {:induction false} DropPunctuationKeeps(s: string, p: char -> bool)
    requires AllChars(s, p)
    ensures AllChars(DropPunctuation(s), p)
    decreases |s|
  {
    if |s| > 0 {
      DropPunctuationKeeps(s[1..], p);
    }
  }

  /** Removing combining marks keeps any property every character had. */
  lemma {:induction false} DropCombiningKeeps(s: string, combining: char -> bool, p: char -> bool)
    requires AllChars(s, p)
    ensures AllChars(DropCombining(s, combining), p)
    decreases |s|
  {
    if |s| > 0 {
      DropCombiningKeeps(s[1..], combining, p);
    }
  }

  /** A character that can reach the output: not whitespace, not punctuation,
      not a combining mark. */
  predicate Survives(t: Tables, d: char)
  {
    !IsSpace(d) && !IsPunctuation(d) && !t.combining(d)
  }

  /** Folding leaves `d` alone. */
  predicate Stable(t: Tables, d: char)
  {
    t.fold(d) == [d]
  }

  /** What the real tables satisfy and idempotence needs: lower-casing and
      decomposing a character that is already lower-case and decomposed
      changes nothing, and the space survives the folding untouched. */
  predicate FoldSettles(t: Tables)
  {
    && Stable(t, ' ')
    && !t.combining(' ')
    && forall c, j :: 0 <= j < |t.fold(c)| && Survives(t, t.fold(c)[j]) ==> Stable(t, t.fold(c)[j])
  }

  lemma {:induction false} FoldAllSettles(text: string, t: Tables)
    requires FoldSettles(t)
    ensures AllChars(FoldAll(text, t.fold), d => Survives(t, d) ==> Stable(t, d))
    decreases |text|
  {
    if |text| > 0 {
      FoldAllSettles(text[1..], t);
      var f := t.fold(text[0]);
      var s := FoldAll(text, t.fold);
      assert s == f + FoldAll(text[1..], t.fold);
      forall i | 0 <= i < |s|
        ensures Survives(t, s[i]) ==> Stable(t, s[i])
      {
        if i < |f| {
          assert s[i] == f[i];
        } else {
          assert s[i] == FoldAll(text[1..], t.fold)[i - |f|];
        }
      }
    }
  }

  lemma {:induction false} FoldAllOfStable(s: string, t: Tables)
    requires AllChars(s, d => Stable(t, d))
    ensures FoldAll(s, t.fold) == s
    decreases |s|
  {
    if |s| > 0 {
      FoldAllOfStable(s[1..], t);
      assert s == [s[0]] + s[1..];
    }
  }

  lemma {:induction false} DropCombiningNone(s: string, combining: char -> bool)
    requires AllChars(s, d => !combining(d))
    ensures DropCombining(s, combining) == s
    decreases |s|
  {
    if |s| > 0 {
      DropCombiningNone(s[1..], combining);
      assert s == [s[0]] + s[1..];
    }
  }

  lemma {:induction false} DropPunctuationNone(s: string)
    requires AllChars(s, d => !IsPunctuation(d))
    ensures DropPunctuation(s) == s
    decreases |s|
  {
    if |s| > 0 {
      DropPunctuationNone(s[1..]);
      assert s == [s[0]] + s[1..];
    }
  }

  /** Normalizing an already normalized string returns it unchanged, for
      character tables that settle after one folding. */
  lemma NormalizeIdempotent(text: string, t: Tables)
    requires FoldSettles(t)
    ensures NormalizeText(NormalizeText(text, t), t) == NormalizeText(text, t)
  {
    var folded := FoldAll(text, t.fold);
    var kept := d => IsSpace(d) || (Stable(t, d) && !t.combining(d) && !IsPunctuation(d));
    FoldAllSettles(text, t);
    DropCombiningKeeps(folded, t.combining, d => Survives(t, d) ==> Stable(t, d));
    var noMarks := DropCombining(folded, t.combining);
    DropPunctuationKeeps(noMarks, d => Survives(t, d) ==> Stable(t, d));
    DropPunctuationKeeps(noMarks, d => !t.combining(d));
    var cleaned := Cleaned(text, t);
    assert AllChars(cleaned, kept);
    var ws := Split(cleaned);
    SplitAllChars(cleaned, kept);
    var good := d => Stable(t, d) && !t.combining(d) && !IsPunctuation(d);
    forall i | 0 <= i < |ws|
      ensures AllChars(ws[i], good)
    {
      assert IsWord(ws[i]);
      assert AllChars(ws[i], kept);
    }
    JoinAllChars(ws, good);
    var out := Join(ws);
    assert out == NormalizeText(text, t);
    FoldAllOfStable(out, t);
    DropCombiningNone(out, t.combining);
    DropPunctuationNone(out);
    assert Cleaned(out, t) == out;
    SplitJoin(ws);
  }
}
