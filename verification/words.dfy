/** Python's `str.split()` (no separator), `" ".join(...)` and `str.strip()`,
    over a fixed set of whitespace characters. */
module Words {
  import opened Seqs

  /** The whitespace characters `str.split()` and `str.strip()` break on:
      the ASCII whitespace, the four information separators, NEL and NBSP. */
  predicate IsSpace(c: char)
  {
    c in {' ', '\t', '\n', '\r', '\U{0B}', '\U{0C}',
          '\U{1C}', '\U{1D}', '\U{1E}', '\U{1F}', '\U{85}', '\U{A0}'}
  }

  /** A word as `str.split()` yields it: non-empty, no whitespace inside. */
  predicate IsWord(w: string)
  {
    |w| > 0 && forall i :: 0 <= i < |w| ==> !IsSpace(w[i])
  }

  /** Text made of whitespace only (or empty). */
  predicate IsBlank(s: string)
  {
    forall i :: 0 <= i < |s| ==> IsSpace(s[i])
  }

  /** The longest prefix of `s` that holds no whitespace. */
  function WordPrefix(s: string): (w: string)
    ensures |w| <= |s| && w == s[..|w|]
    ensures forall i :: 0 <= i < |w| ==> !IsSpace(w[i])
    ensures |w| == |s| || IsSpace(s[|w|])
    decreases |s|
  {
    if |s| == 0 || IsSpace(s[0]) then "" else [s[0]] + WordPrefix(s[1..])
  }

  /** `s.split()`: the maximal runs of non-whitespace characters, in order. */
  function Split(s: string): (ws: seq<string>)
    ensures forall i :: 0 <= i < |ws| ==> IsWord(ws[i])
    ensures |ws| == 0 <==> IsBlank(s)
    decreases |s|
  {
    if |s| == 0 then []
    else if IsSpace(s[0]) then Split(s[1..])
    else
      var w := WordPrefix(s);
      [w] + Split(s[|w|..])
  }

  /** `" ".join(ws)`. */
  function Join(ws: seq<string>): string
    decreases |ws|
  {
    if |ws| == 0 then ""
    else if |ws| == 1 then ws[0]
    else ws[0] + " " + Join(ws[1..])
  }

  /** `" ".join` of a single element returns that element unchanged. */
  lemma JoinOne(w: string)
    ensures Join([w]) == w
  {
  }

  /** `" ".join` puts exactly one space between consecutive elements and none
      around them: cutting the list at any point gives the join of the front,
      one space, and the join of the back. */
  lemma {:induction false} JoinAt(ws: seq<string>, k: nat)
    requires 0 < k < |ws|
    ensures Join(ws) == Join(ws[..k]) + " " + Join(ws[k..])
    decreases k
  {
    if k > 1 {
      JoinAt(ws[1..], k - 1);
      assert ws[1..][..k - 1] == ws[..k][1..];
      assert ws[1..][k - 1..] == ws[k..];
      assert ws[..k][0] == ws[0];
    } else {
      assert ws[..1] == [ws[0]];
      assert ws[1..] == ws[k..];
    }
  }

  /** `s.strip()`: `s` without its leading and trailing whitespace. */
  function Strip(s: string): (t: string)
    ensures |t| == 0 || (!IsSpace(t[0]) && !IsSpace(t[|t| - 1]))
    ensures exists i, j :: 0 <= i <= j <= |s| && t == s[i..j]
              && IsBlank(s[..i]) && IsBlank(s[j..])
  {
    var i := LeadingSpaces(s, 0);
    var j := TrailingEnd(s, i, |s|);
    s[i..j]
  }

  /** The index of the first non-whitespace character at or after `k`, or `|s|`. */
  function LeadingSpaces(s: string, k: nat): (i: nat)
    requires k <= |s|
    requires IsBlank(s[..k])
    ensures k <= i <= |s| && IsBlank(s[..i])
    ensures i == |s| || !IsSpace(s[i])
    decreases |s| - k
  {
    if k == |s| || !IsSpace(s[k]) then k
    else
      assert s[..k + 1] == s[..k] + [s[k]];
      LeadingSpaces(s, k + 1)
  }

  /** The end of `s[lo..j]` once its trailing whitespace is dropped. */
  function TrailingEnd(s: string, lo: nat, j: nat): (e: nat)
    requires lo <= j <= |s|
    requires IsBlank(s[j..])
    ensures lo <= e <= j && IsBlank(s[e..])
    ensures e == lo || !IsSpace(s[e - 1])
    decreases j - lo
  {
    if j == lo || !IsSpace(s[j - 1]) then j
    else
      assert s[j - 1..] == [s[j - 1]] + s[j..];
      TrailingEnd(s, lo, j - 1)
  }

  /** The guard `len(text.strip()) == 0` holds exactly when the text has no words. */
  lemma StripEmptyIffNoWords(s: string)
    ensures |Strip(s)| == 0 <==> Split(s) == []
  {
  }

  /** A word followed by nothing or by whitespace is exactly the word prefix. */
  lemma {:induction false} WordPrefixOfWord(w: string, rest: string)
    requires IsWord(w)
    requires |rest| == 0 || IsSpace(rest[0])
    ensures WordPrefix(w + rest) == w
    decreases |w|
  {
    if |w| > 1 {
      assert (w + rest)[1..] == w[1..] + rest;
      WordPrefixOfWord(w[1..], rest);
    } else {
      assert (w + rest)[1..] == rest;
    }
  }

  /** Splitting a single word gives back that word. */
  lemma SplitWord(w: string)
    requires IsWord(w)
    ensures Split(w) == [w]
  {
    WordPrefixOfWord(w, "");
    assert w + "" == w;
  }

  /** Splitting a word followed by a space and more text gives the word and
      then the words of the rest. */
  lemma SplitWordThenRest(w: string, t: string)
    requires IsWord(w)
    ensures Split(w + " " + t) == [w] + Split(t)
  {
    var s, rest := w + " " + t, " " + t;
    assert s == w + rest;
    WordPrefixOfWord(w, rest);
    assert s[|w|..] == rest;
    assert rest[1..] == t;
  }

  /** Whitespace after a word prefix does not change it. */
  lemma {:induction false} WordPrefixBeforeSpace(a: string, c: char, b: string)
    requires IsSpace(c)
    ensures WordPrefix(a + [c] + b) == WordPrefix(a)
    decreases |a|
  {
    if |a| > 0 && !IsSpace(a[0]) {
      assert (a + [c] + b)[1..] == a[1..] + [c] + b;
      WordPrefixBeforeSpace(a[1..], c, b);
    }
  }

  /** A whitespace character separates: the words of `a`, then the words of `b`.
      With `SplitWord` and the blank case of `Split`, this fixes `str.split()`
      as the maximal non-whitespace runs of the text. */
  lemma {:induction false} SplitAtSpace(a: string, c: char, b: string)
    requires IsSpace(c)
    ensures Split(a + [c] + b) == Split(a) + Split(b)
    decreases |a|
  {
    var s := a + [c] + b;
    if |a| == 0 {
      assert s[1..] == b;
    } else if IsSpace(a[0]) {
      assert s[1..] == a[1..] + [c] + b;
      SplitAtSpace(a[1..], c, b);
    } else {
      var w := WordPrefix(a);
      WordPrefixBeforeSpace(a, c, b);
      assert s[|w|..] == a[|w|..] + [c] + b;
      SplitAtSpace(a[|w|..], c, b);
    }
  }

  /** Round trip: splitting the space-joined words gives back the words. */
  lemma {:induction false} SplitJoin(ws: seq<string>)
    requires forall i :: 0 <= i < |ws| ==> IsWord(ws[i])
    ensures Split(Join(ws)) == ws
    decreases |ws|
  {
    if |ws| == 1 {
      SplitWord(ws[0]);
    } else if |ws| > 1 {
      SplitWordThenRest(ws[0], Join(ws[1..]));
      SplitJoin(ws[1..]);
    }
  }

  /** A text of `n` characters holds at most `(n + 1) / 2` words, since
      consecutive words are separated by at least one whitespace character. */
  lemma {:induction false} WordCountBound(s: string)
    ensures |Split(s)| <= (|s| + 1) / 2
    decreases |s|
  {
    if |s| > 0 {
      if IsSpace(s[0]) {
        WordCountBound(s[1..]);
      } else {
        var w := WordPrefix(s);
        var t := s[|w|..];
        if |t| > 0 {
          assert Split(t) == Split(t[1..]);
          WordCountBound(t[1..]);
        }
      }
    }
  }
}
