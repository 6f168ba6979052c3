/** `summarize_text`: cut the text into 1024-character windows, ask the
    summarizer for a partial summary of each in turn, with the bounds the
    length adapter computes for that window, and append each partial summary
    followed by one space. */
module Summary {
  import opened Seqs
  import opened Outcomes
  import opened Words
  import opened LengthAdapter
  import opened CharWindows

  /** One invocation of the summarizer: the window and the bounds passed as
      `max_length` and `min_length`. */
  datatype Call = Call(chunk: string, maxLength: int, minLength: int)

  /** What the summarizer answers to `call`: the partial summary text, or the
      error it raised. */
  function Reply<E>(summarize: (string, int, int) -> Result<string, E>, call: Call): Result<string, E>
  {
    summarize(call.chunk, call.maxLength, call.minLength)
  }

  /** The call made for one window, with the default length parameters. */
  function CallFor(chunk: string): (c: Call)
    ensures c.chunk == chunk
    ensures c.minLength < c.maxLength <= Defaults.maxCap
    ensures c.minLength <= Defaults.minCap
  {
    var b := AdjustLength(chunk, Defaults);
    Call(chunk, b.maxLength, b.minLength)
  }

  /** The calls made for `windows` when none of them raises: one per window,
      in window order. */
  function PlanFor(windows: seq<string>): (calls: seq<Call>)
    ensures |calls| == |windows|
    ensures forall i :: 0 <= i < |calls| ==> calls[i] == CallFor(windows[i])
  {
    seq(|windows|, i requires 0 <= i < |windows| => CallFor(windows[i]))
  }

  /** The calls `summarize_text` makes when none of them raises: one per
      1024-character window of the text, in window order. */
  function Plan(text: string): (calls: seq<Call>)
    ensures |calls| == |Windows(text, MaxChunkSize)|
    ensures forall i :: 0 <= i < |calls| ==> calls[i] == CallFor(Windows(text, MaxChunkSize)[i])
    ensures calls == [] <==> text == ""
  {
    PlanFor(Windows(text, MaxChunkSize))
  }

  predicate AllSucceed<E>(summarize: (string, int, int) -> Result<string, E>, calls: seq<Call>)
  {
    forall i :: 0 <= i < |calls| ==> Reply(summarize, calls[i]).Success?
  }

  /** Each partial summary followed by the one space appended after it. */
  function Pieces<E>(summarize: (string, int, int) -> Result<string, E>, calls: seq<Call>): (ps: seq<string>)
    requires AllSucceed(summarize, calls)
    ensures |ps| == |calls|
  {
    seq(|calls|, i requires 0 <= i < |calls| => Reply(summarize, calls[i]).value + " ")
  }

  /** `summarize_text(text)`, returning also the calls made, in order. The calls
      are a prefix of the plan; the result is a summary exactly when every
      planned call succeeds, and it is then the partial summaries each followed
      by a space, in window order, so it is empty exactly for the empty text and
      otherwise ends with a space. Otherwise the error is the one raised by the
      last call made, and every call before it succeeded. */
  method SummarizeText<E>(text: string, summarize: (string, int, int) -> Result<string, E>)
    returns (r: Result<string, E>, calls: seq<Call>)
    ensures |calls| <= |Plan(text)| && calls == Plan(text)[..|calls|]
    ensures r.Success? <==> AllSucceed(summarize, Plan(text))
    ensures r.Success? ==> calls == Plan(text) && r.value == Concat(Pieces(summarize, calls))
    ensures r.Success? ==> (r.value == "" <==> text == "")
    ensures r.Success? && text != "" ==> r.value[|r.value| - 1] == ' '
    ensures r.Failure? ==> |calls| > 0 && AllSucceed(summarize, calls[..|calls| - 1])
                           && Reply(summarize, calls[|calls| - 1]) == Failure(r.error)
  {
    var windows := Windows(text, MaxChunkSize);
    r, calls := SummarizeWindows(windows, summarize);
  }

  /** The loop of `summarize_text` over the given windows: the same promises as
      `SummarizeText`, stated against the calls planned for `windows`. */
  method SummarizeWindows<E>(windows: seq<string>, summarize: (string, int, int) -> Result<string, E>)
    returns (r: Result<string, E>, calls: seq<Call>)
    ensures |calls| <= |windows| && calls == PlanFor(windows)[..|calls|]
    ensures r.Success? <==> AllSucceed(summarize, PlanFor(windows))
    ensures r.Success? ==> calls == PlanFor(windows) && r.value == Concat(Pieces(summarize, calls))
    ensures r.Success? ==> (r.value == "" <==> windows == [])
    ensures r.Success? && windows != [] ==> r.value[|r.value| - 1] == ' '
    ensures r.Failure? ==> |calls| > 0 && AllSucceed(summarize, calls[..|calls| - 1])
                           && Reply(summarize, calls[|calls| - 1]) == Failure(r.error)
  {
    ghost var plan := PlanFor(windows);
    var summary := "";
    calls := [];
    var k := 0;
    while k < |windows|
      invariant 0 <= k <= |windows|
      invariant calls == plan[..k]
      invariant AllSucceed(summarize, calls)
      invariant summary == Concat(Pieces(summarize, calls))
    {
      var call := CallFor(windows[k]);
      var reply := summarize(call.chunk, call.maxLength, call.minLength);
      if reply.Failure? {
        FirstFailure(summarize, plan, k);
        calls := calls + [call];
        return Failure(reply.error), calls;
      }
      PiecesAppend(summarize, calls, call);
      assert plan[..k + 1] == calls + [call];
      calls := calls + [call];
      summary := summary + reply.value + " ";
      k := k + 1;
    }
    PiecesShape(summarize, calls);
    r := Success(summary);
  }

  /** When the calls before index `k` succeed and call `k` fails, the calls made
      are the first `k + 1` planned ones and not every planned call succeeds. */
  lemma FirstFailure<E>(summarize: (string, int, int) -> Result<string, E>, plan: seq<Call>, k: nat)
    requires k < |plan|
    requires AllSucceed(summarize, plan[..k]) && Reply(summarize, plan[k]).Failure?
    ensures !AllSucceed(summarize, plan)
    ensures (plan[..k] + [plan[k]]) == plan[..k + 1]
    ensures (plan[..k] + [plan[k]])[..k] == plan[..k]
  {
  }

  /** Appending a call appends its piece at the end of the summary. */
  lemma PiecesAppend<E>(summarize: (string, int, int) -> Result<string, E>, calls: seq<Call>, call: Call)
    requires AllSucceed(summarize, calls) && Reply(summarize, call).Success?
    ensures AllSucceed(summarize, calls + [call])
    ensures Concat(Pieces(summarize, calls + [call]))
         == Concat(Pieces(summarize, calls)) + Reply(summarize, call).value + " "
  {
    var piece := Reply(summarize, call).value + " ";
    assert Pieces(summarize, calls + [call]) == Pieces(summarize, calls) + [piece];
    ConcatAppend(Pieces(summarize, calls), [piece]);
    assert Concat([piece]) == piece;
  }

  /** The joined pieces are empty exactly when there are no calls, and end
      with a space otherwise. */
  lemma PiecesShape<E>(summarize: (string, int, int) -> Result<string, E>, calls: seq<Call>)
    requires AllSucceed(summarize, calls)
    ensures Concat(Pieces(summarize, calls)) == "" <==> calls == []
    ensures calls != [] ==> var s := Concat(Pieces(summarize, calls)); s[|s| - 1] == ' '
  {
    var ps := Pieces(summarize, calls);
    ConcatEmpty(ps);
    if calls != [] {
      var n := |calls| - 1;
      assert ps == ps[..n] + [ps[n]];
      ConcatAppend(ps[..n], [ps[n]]);
      assert Concat([ps[n]]) == ps[n];
    }
  }

  /** A window has at most 1024 characters and so at most 512 words; its
      `max_length` is therefore at most 153, and the 200 cap never binds. */
  lemma WindowBoundsBelowCap(text: string)
    ensures forall i :: 0 <= i < |Plan(text)| ==>
              Plan(text)[i].maxLength <= 153 < Defaults.maxCap
  {
    var ws := Windows(text, MaxChunkSize);
    forall i | 0 <= i < |Plan(text)|
      ensures Plan(text)[i].maxLength <= 153
    {
      WordCountBound(ws[i]);
      BoundsMonotone(|Split(ws[i])|, 512, Defaults);
      assert BoundsFor(512, Defaults).maxLength == 153;
    }
  }

  /** A window of three words is summarized with `max_length` 0 and
      `min_length` -1: the negative minimum is reachable. */
  lemma ThreeWordWindow()
    ensures Plan("a b c") == [Call("a b c", 0, -1)]
  {
    ThreeWordWindows();
    ThreeWords();
    assert CallFor("a b c") == Call("a b c", 0, -1);
  }

  lemma ThreeWordWindows()
    ensures Windows("a b c", MaxChunkSize) == ["a b c"]
  {
    assert WindowsFrom("a b c", MaxChunkSize, 1024) == [];
    assert "a b c"[0..Min(1024, 5)] == "a b c";
  }

  lemma ThreeWords()
    ensures |Split("a b c")| == 3
  {
    var words := ["a", "b", "c"];
    assert Join(words) == "a b c";
    SplitJoin(words);
  }
}
