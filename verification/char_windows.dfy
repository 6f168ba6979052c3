/** The list comprehension `[text[i:i + size] for i in range(0, len(text), size)]`:
    consecutive fixed-size character windows, cut without regard to words. */
module CharWindows {
  import opened Seqs

  /** `max_chunk_size` in `summarize_text`. */
  const MaxChunkSize := 1024

  /** The windows starting at offsets `start`, `start + size`, ... below `|text|`;
      a slice past the end is clipped, as Python slicing does. Concatenated
      they give back the text from `start` on; there are `ceil(n / size)` of
      them for `n` remaining characters; all are full but the last, which holds
      between one character and a full window. */
  function WindowsFrom(text: string, size: int, start: nat): (ws: seq<string>)
    requires size >= 1
    ensures start <= |text| ==> Concat(ws) == text[start..]
    ensures start < |text| ==> (|ws| - 1) * size < |text| - start <= |ws| * size
    ensures start >= |text| <==> |ws| == 0
    ensures forall k :: 0 <= k < |ws| ==> 1 <= |ws[k]| <= size
    ensures forall k :: 0 <= k < |ws| - 1 ==> |ws[k]| == size
    decreases |text| - start
  {
    if start >= |text| then []
    else
      var w := text[start..Min(start + size, |text|)];
      var rest := WindowsFrom(text, size, start + size);
      assert start + size < |text| ==> w + text[start + size..] == text[start..];
      [w] + rest
  }

  /** The windows of the whole text. */
  function Windows(text: string, size: int): (ws: seq<string>)
    requires size >= 1
    ensures Concat(ws) == text
    ensures |ws| == (|text| + size - 1) / size
    ensures forall k :: 0 <= k < |ws| ==> 1 <= |ws[k]| <= size
    ensures forall k :: 0 <= k < |ws| - 1 ==> |ws[k]| == size
  {
    var ws := WindowsFrom(text, size, 0);
    CeilDivUnique(|text|, size, |ws|);
    ws
  }

  /** `k` is the rounded-up quotient `ceil(n / d)` when it is the least
      multiplier of `d` that reaches `n`. */
  lemma CeilDivUnique(n: nat, d: int, k: nat)
    requires d >= 1
    requires n == 0 ==> k == 0
    requires n > 0 ==> (k - 1) * d < n <= k * d
    ensures k == (n + d - 1) / d
  {
    var q, r := (n + d - 1) / d, (n + d - 1) % d;
    assert n + d - 1 == q * d + r && 0 <= r < d;
    if n > 0 {
      if q < k {
        MulLe(q, k - 1, d);
      } else if q > k {
        MulLe(k + 1, q, d);
      }
    } else {
      if q > 0 {
        MulLe(1, q, d);
      } else if q < 0 {
        MulLe(q, -1, d);
      }
    }
  }

  lemma MulLe(x: int, y: int, d: int)
    requires x <= y && d >= 0
    ensures x * d <= y * d
  {
    assert y * d - x * d == (y - x) * d;
  }

  /** The window size of 5 cuts "abcdefgh" into "abcde" and "fgh". */
  lemma EightCharsByFive()
    ensures Windows("abcdefgh", 5) == ["abcde", "fgh"]
  {
    var text := "abcdefgh";
    assert WindowsFrom(text, 5, 10) == [];
    assert WindowsFrom(text, 5, 5) == [text[5..8]];
    assert WindowsFrom(text, 5, 0) == [text[0..5], text[5..8]];
    assert text[0..5] == "abcde" && text[5..8] == "fgh";
  }

  /** Text without characters yields no window at all. */
  lemma EmptyTextNoWindows(size: int)
    requires size >= 1
    ensures Windows("", size) == []
  {
  }
}
