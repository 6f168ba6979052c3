/** `split_text`: the words of a text packed, in order, into chunks of
    `max_tokens` words, each chunk re-joined with single spaces. */
module WordChunker {
  import opened Seqs
  import opened Words

  /** The chunk size the loop actually produces: the test
      `len(current_chunk) >= max_tokens` runs after an append, so a threshold
      below one flushes after every word. */
  function ChunkLimit(maxTokens: int): (n: nat)
    ensures n >= 1 && n >= maxTokens
    ensures maxTokens >= 1 ==> n == maxTokens
  {
    if maxTokens < 1 then 1 else maxTokens
  }

  /** The `for word in words` loop from a state whose pending chunk is
      `current`: each word is appended, a chunk that reaches the threshold is
      emitted, and whatever is pending at the end is emitted too. */
  function Group(words: seq<string>, maxTokens: int, current: seq<string>): (chunks: seq<seq<string>>)
    requires |current| < ChunkLimit(maxTokens)
    ensures Concat(chunks) == current + words
    ensures forall i :: 0 <= i < |chunks| ==> 1 <= |chunks[i]| <= ChunkLimit(maxTokens)
    ensures forall i :: 0 <= i < |chunks| - 1 ==> |chunks[i]| == ChunkLimit(maxTokens)
    ensures |chunks| == 0 <==> |current| + |words| == 0
    decreases |words|
  {
    if |words| == 0 then
      if |current| > 0 then [current] else []
    else
      var pending := current + [words[0]];
      if |pending| >= maxTokens then
        assert pending + words[1..] == current + words;
        [pending] + Group(words[1..], maxTokens, [])
      else
        assert pending + words[1..] == current + words;
        Group(words[1..], maxTokens, pending)
  }

  /** Joins every group of words with single spaces. */
  function JoinAll(groups: seq<seq<string>>): (chunks: seq<string>)
    ensures |chunks| == |groups|
  {
    seq(|groups|, i requires 0 <= i < |groups| => Join(groups[i]))
  }

  /** The words of every chunk, chunk by chunk. */
  function WordsOf(chunks: seq<string>): (ws: seq<seq<string>>)
    ensures |ws| == |chunks|
  {
    seq(|chunks|, i requires 0 <= i < |chunks| => Split(chunks[i]))
  }

  /** `split_text(text, max_tokens)`. Splitting loses nothing: the words of the
      chunks, in order, are the words of the text; every chunk but the last
      holds exactly the threshold, the last between one word and the
      threshold; a text without words gives no chunks; each chunk is its
      words joined with single spaces. */
  function SplitText(text: string, maxTokens: int): (chunks: seq<string>)
    ensures Concat(WordsOf(chunks)) == Split(text)
    ensures forall i :: 0 <= i < |chunks| ==> 1 <= |Split(chunks[i])| <= ChunkLimit(maxTokens)
    ensures forall i :: 0 <= i < |chunks| - 1 ==> |Split(chunks[i])| == ChunkLimit(maxTokens)
    ensures chunks == [] <==> IsBlank(text)
    ensures forall i :: 0 <= i < |chunks| ==> chunks[i] == Join(Split(chunks[i]))
  {
    var words := Split(text);
    var groups := Group(words, maxTokens, []);
    GroupsRoundTrip(words, groups);
    JoinAll(groups)
  }

  /** Re-splitting the joined groups gives back the groups, because every
      element of a group is a word. */
  lemma GroupsRoundTrip(words: seq<string>, groups: seq<seq<string>>)
    requires forall i :: 0 <= i < |words| ==> IsWord(words[i])
    requires Concat(groups) == words
    ensures WordsOf(JoinAll(groups)) == groups
  {
    forall g | 0 <= g < |groups|
      ensures Split(Join(groups[g])) == groups[g]
    {
      WordsInGroup(groups, g);
      SplitJoin(groups[g]);
    }
  }

  /** Every element of every group is an element of the flattened sequence. */
  lemma {:induction false} WordsInGroup(groups: seq<seq<string>>, g: nat)
    requires g < |groups|
    requires forall i :: 0 <= i < |Concat(groups)| ==> IsWord(Concat(groups)[i])
    ensures forall i :: 0 <= i < |groups[g]| ==> IsWord(groups[g][i])
    decreases g
  {
    var all := Concat(groups);
    assert all == groups[0] + Concat(groups[1..]);
    if g == 0 {
      assert forall i :: 0 <= i < |groups[0]| ==> groups[0][i] == all[i];
    } else {
      var rest := Concat(groups[1..]);
      assert forall i :: 0 <= i < |rest| ==> rest[i] == all[|groups[0]| + i];
      WordsInGroup(groups[1..], g - 1);
    }
  }

  /** The example "a b c d e" with a threshold of three words. */
  lemma FiveWordsByThree()
    ensures SplitText("a b c d e", 3) == ["a b c", "d e"]
  {
    FiveWordsSplit();
    FiveWordsGrouped();
    assert SplitText("a b c d e", 3) == JoinAll([["a", "b", "c"], ["d", "e"]]);
    FiveWordsJoined();
  }

  lemma TwoWordsGrouped()
    ensures Group(["d", "e"], 3, []) == [["d", "e"]]
  {
    assert Group([], 3, ["d", "e"]) == [["d", "e"]];
    assert ["e"][1..] == [] && ["d"] + ["e"] == ["d", "e"];
    assert Group(["e"], 3, ["d"]) == [["d", "e"]];
    assert ["d", "e"][1..] == ["e"] && [] + ["d"] == ["d"];
  }

  lemma FiveWordsJoined()
    ensures JoinAll([["a", "b", "c"], ["d", "e"]]) == ["a b c", "d e"]
  {
    var groups := [["a", "b", "c"], ["d", "e"]];
    assert Join(groups[0]) == "a b c";
    assert Join(groups[1]) == "d e";
  }

  lemma FiveWordsSplit()
    ensures Split("a b c d e") == ["a", "b", "c", "d", "e"]
  {
    var words := ["a", "b", "c", "d", "e"];
    assert Join(words) == "a b c d e";
    SplitJoin(words);
  }

  lemma FiveWordsGrouped()
    ensures Group(["a", "b", "c", "d", "e"], 3, []) == [["a", "b", "c"], ["d", "e"]]
  {
    TwoWordsGrouped();
    assert ["c", "d", "e"][1..] == ["d", "e"] && ["a", "b"] + ["c"] == ["a", "b", "c"];
    assert Group(["c", "d", "e"], 3, ["a", "b"]) == [["a", "b", "c"], ["d", "e"]];
    assert ["b", "c", "d", "e"][1..] == ["c", "d", "e"] && ["a"] + ["b"] == ["a", "b"];
    assert Group(["b", "c", "d", "e"], 3, ["a"]) == [["a", "b", "c"], ["d", "e"]];
    assert ["a", "b", "c", "d", "e"][1..] == ["b", "c", "d", "e"] && [] + ["a"] == ["a"];
  }
}
