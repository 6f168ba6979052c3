# Document summarizer: chunking and summary-length core

This project models the part of the GenerateResume Flask service that makes a
long document fit a fixed-window summarization model. The core lives in
`app.py` and has four parts:

- **Word-count segmenter** (`split_text`). It splits the text on whitespace and
  packs the words, in order, into chunks of `max_tokens` words. Each chunk is
  re-joined with single spaces.
- **Character-window segmenter**. This is the comprehension in
  `summarize_text`. It cuts the raw text into consecutive 1024-character
  slices and ignores word boundaries.
- **Length adapter** (`ajuster_longueur`). It takes a chunk's word count and
  computes `max_length = int(words * proportion)`, capped at `max_cap`. It
  then computes `min_length = min(min_cap, max_length - 1)`.
- **Assembly loop** (`summarize_text`). For each window, in order, it computes
  the bounds, calls the summarizer and appends the partial summary plus one
  space.

Modules:

- `Seqs`: `Min` and `Concat` (flattening).
- `Outcomes`: `Result`, the outcome of a call that may raise.
- `Words`: Python's `str.split()`, `" ".join` and `str.strip()`.
- `LengthAdapter`: `ajuster_longueur`.
- `WordChunker`: `split_text`.
- `CharWindows`: the window comprehension.
- `Summary`: `summarize_text`.

The summarizer pipeline is a function parameter of type
`(chunk, max_length, min_length) -> Result<string, E>`. A `Failure` stands for
an exception the pipeline raises. The model does not describe what the
pipeline computes. The method `Summary.SummarizeText` also returns the calls it
made, in order, so its contract can state call order and arguments.

The float `proportion` is modelled as the rational `num / den`, so 0.3 becomes
3 / 10. Python's `int()` of the product is division truncating toward zero
(`LengthAdapter.TruncDiv`). It is written out explicitly because Dafny's `/`
is Euclidean.

Four behaviours of the code are worth knowing. The model keeps each one as
written:

- `summarize_text` never calls `split_text` (app.py:62-74). It uses only the
  character windows. `split_text` is modelled on its own.
- A single summarizer is built at app.py:10, and there is no choice of model.
- Nothing checks `min_length < max_length` before the call at app.py:71. It
  holds by construction (`LengthAdapter.BoundsFor`). `min_length` can still be
  negative: a window of fewer than four words gets the bounds (0, -1), and the
  code passes them on unguarded. `LengthAdapter.ShortChunkWithDefaults` and
  `Summary.ThreeWordWindow` state this as a reachable outcome.
- A summarizer error propagates unchanged, without a window index. No partial
  summary is returned.

The empty-text check is done by the upload route before `summarize_text` is
called. The model keeps `summarize_text` total. `Words.StripEmptyIffNoWords`
states what that guard means.

## Model

| member | source | states |
|---|---|---|
| Words.Split | app.py:38 | `text.split()` yields only non-empty, whitespace-free words, and yields none exactly when the text is whitespace only |
| Words.SplitAtSpace | app.py:38 | a whitespace character splits the text: the words of `a + [c] + b` are the words of `a` followed by the words of `b`; with the single-word and blank cases this makes `text.split()` the maximal non-whitespace runs, in order |
| Words.JoinOne | app.py:54-58 | `" ".join` of a single element returns that element unchanged |
| Words.JoinAt | app.py:54-58 | cutting the list at any point, `" ".join` gives the join of the front, exactly one space, then the join of the back, so consecutive elements are separated by exactly one space and nothing comes before or after them |
| Words.SplitJoin | app.py:54-58 | re-splitting a chunk built by `" ".join` of words gives back exactly those words (the join/split round trip) |
| Words.Strip | app.py:106 | `text.strip()` is a contiguous slice of the text with only whitespace removed before and after it, and it neither starts nor ends with whitespace |
| Words.StripEmptyIffNoWords | app.py:106 | the upload guard `len(text.strip()) == 0` holds exactly when the text has no words, so `summarize_text` is only reached for text with at least one word |
| Words.WordCountBound | app.py:38 | a text of n characters has at most (n + 1) / 2 words |
| LengthAdapter.TruncDiv | app.py:39 | `int()` of the product truncates toward zero: the quotient times the denominator lies within one denominator of the numerator, on the zero side |
| LengthAdapter.BoundsFor | app.py:39-42 | `max_length` is at most both `max_cap` and the truncated proportional count, and equals that count whenever it is below the cap (so it is `min(int(words * proportion), max_cap)`); `min_length < max_length`; `min_length <= min_cap`; `min_length` is `min_cap` when `max_length` exceeds it and `max_length - 1` otherwise |
| LengthAdapter.AdjustLength | app.py:37-42 | for the words of the chunk, `text.split()`: `max_length` is the truncated product of their number and the proportion when that product is within `max_cap`, and `max_cap` when the product reaches it; `min_length` is `min_cap` when `max_length` exceeds it and `max_length - 1` otherwise; so `max_length <= max_cap`, `min_length < max_length`, `min_length <= min_cap`, and `min_length >= 0` whenever `max_length >= 1` and `min_cap >= 0` |
| LengthAdapter.BelowCapIsProportional | app.py:39-40 | below the cap, `max_length` equals floor(words * proportion) and lies between 0 and the word count for a proportion in [0, 1] |
| LengthAdapter.HundredWordsWithDefaults | app.py:37-42 | 100 words with the defaults (0.3, 200, 20) give the bounds (30, 20) |
| LengthAdapter.BoundsMonotone | app.py:38-41 | for a non-negative proportion, a chunk with more words never gets a smaller `max_length` or `min_length` |
| LengthAdapter.ShortChunkWithDefaults | app.py:39-41 | with the defaults, `min_length` is negative exactly for chunks of fewer than four words, which get the bounds (0, -1) |
| WordChunker.Group | app.py:51-58 | the word loop emits every word once, in order; no chunk is empty; every chunk but the last holds exactly the threshold (one word when `max_tokens < 1`); the last holds one word up to the threshold; there are no chunks exactly when there are no words |
| WordChunker.SplitText | app.py:45-60 | the words of the chunks, in order, are exactly `text.split()`; each chunk is its words joined with single spaces; with the limit being `max_tokens`, or one word when `max_tokens < 1`, every chunk but the last has exactly the limit in words and the last has 1 to the limit; whitespace-only text gives `[]` |
| WordChunker.FiveWordsByThree | app.py:45-60 | "a b c d e" with a threshold of 3 gives ["a b c", "d e"] |
| CharWindows.WindowsFrom | app.py:65 | the slices from an offset on concatenate back to the text from that offset; there are ceil(n / size) of them; all are full but the last, which holds 1 to size characters |
| CharWindows.Windows | app.py:64-65 | the windows concatenate back to the text exactly; their number is ceil(len(text) / size), so empty text gives none; every window but the last has the full size and the last has 1 to size characters |
| CharWindows.EightCharsByFive | app.py:65 | a window size of 5 cuts "abcdefgh" into "abcde" and "fgh" |
| CharWindows.EmptyTextNoWindows | app.py:65 | the empty text yields no window |
| Summary.CallFor | app.py:69 | each window is summarized with bounds satisfying `min_length < max_length <= 200` and `min_length <= 20` |
| Summary.Plan | app.py:64-69 | the planned calls are one per window, in window order, each carrying that window and its adapter bounds |
| Summary.SummarizeText | app.py:62-74 | the summarizer is called once per window in window order with the adapter's bounds, stopping at the first raised error, which is returned; the result is a summary exactly when every call succeeds, and then it is the partial summaries each followed by one space, in order; it is "" exactly for empty text and otherwise ends with a space |
| Summary.SummarizeWindows | app.py:67-74 | the loop over the windows calls the summarizer for a prefix of the windows, in order, with each window's adapter bounds; it succeeds exactly when every call succeeds, returning each partial summary followed by one space, in window order; on the first raised error it stops and returns that error |
| Summary.PiecesAppend | app.py:72 | appending one more partial summary extends the result by that text and one space at the end, leaving the earlier text unchanged |
| Summary.PiecesShape | app.py:67-74 | the assembled summary is empty exactly when no window was summarized, and otherwise ends with the appended space |
| Summary.WindowBoundsBelowCap | app.py:62-69 | every 1024-character window has at most 512 words, so its `max_length` is at most 153 and the 200 cap never applies inside `summarize_text` |
| Summary.ThreeWordWindow | app.py:64-71 | the text "a b c" is summarized in one call with `max_length` 0 and `min_length` -1 |

## Left out

- Flask routing and upload handling (app.py:77-117) are left out. This covers request checks, saving the file, dispatch on the extension and mapping exceptions to HTTP 500. It is I/O plumbing. Only the meaning of the whitespace guard at app.py:106 is stated (`Words.StripEmptyIffNoWords`).
- The document text extractors (app.py:12-34) are left out. They are thin wrappers over PyPDF2, python-docx and python-pptx, whose code is not part of this model.
- The `transformers` summarization pipeline (app.py:10, 71) is a function parameter. Its behaviour and length guarantees are not modelled. `do_sample=False` and the unpacking of `[0]['summary_text']` are folded into that parameter.
- Floating-point `proportion` is left out. It is modelled as an exact rational. `int(n * 0.3)` agrees with floor(3n / 10) for realistic word counts, but float rounding for huge counts is not modelled.
- `Words.IsSpace` covers only part of Python's whitespace. It covers ASCII whitespace, U+001C to U+001F, U+0085 and U+00A0. The other Unicode space characters that `str.split()` also breaks on (U+1680, U+2000 to U+200A, U+2028, U+2029, U+202F, U+205F, U+3000) are left out to keep the character set fixed.
- `CharWindows.Windows` requires a window size of at least 1. In Python, `range` with step 0 raises, and the source only ever uses 1024.
- Logging `print` calls (app.py:89, 103, 112) are left out.
- The React front end (App.js) is left out. It is UI and HTTP client code with no logic to model.
