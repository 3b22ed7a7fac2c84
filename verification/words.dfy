/** Whitespace tokenisation shared by the two Python backends
    (backend/stlc/code_review.py and ornek_backend/backend.py define the same
    three helpers textually; both are modelled by the one definition here):
    `count_tokens` (the number of words `str.split()` yields),
    `sanitize_text` (the words joined by single spaces) and
    `determine_chunk_size` (a chunk size that shrinks once the text exceeds
    the model's token limit). */
module Words {
  import opened Strings
  import opened Sequences

  /** Python's `str.isspace` for a single character: the ASCII controls
      TAB..CR and FS..US, SPACE, NEL, NBSP and the Unicode space separators
      and line/paragraph separators. */
  predicate IsSpace(c: char) {
    || ('\t' <= c <= '\r')
    || ('\U{1C}' <= c <= ' ')
    || c == '\U{85}' || c == '\U{A0}' || c == '\U{1680}'
    || ('\U{2000}' <= c <= '\U{200A}')
    || c == '\U{2028}' || c == '\U{2029}' || c == '\U{202F}' || c == '\U{205F}' || c == '\U{3000}'
  }

  /** Python's `not s.strip()`: the string holds whitespace only. */
  predicate AllSpace(s: string) {
    forall i :: 0 <= i < |s| ==> IsSpace(s[i])
  }

  /** A non-empty run without whitespace. */
  predicate IsWord(w: string) {
    |w| > 0 && forall i :: 0 <= i < |w| ==> !IsSpace(w[i])
  }

  /** Length of the maximal whitespace-free prefix of `s`. */
  function WordLen(s: string): (n: nat)
    ensures n <= |s|
    ensures forall i :: 0 <= i < n ==> !IsSpace(s[i])
    ensures n < |s| ==> IsSpace(s[n])
  {
    if |s| == 0 || IsSpace(s[0]) then 0 else 1 + WordLen(s[1..])
  }

  /** Python `s.split()` with no argument: the maximal runs of
      non-whitespace characters, left to right. */
  function SplitWords(s: string): (ws: seq<string>)
    ensures forall k :: 0 <= k < |ws| ==> IsWord(ws[k])
    decreases |s|
  {
    if |s| == 0 then []
    else if IsSpace(s[0]) then SplitWords(s[1..])
    else
      var n := WordLen(s);
      [s[..n]] + SplitWords(s[n..])
  }

  /** `count_tokens`: `len(text.split())`. */
  function CountTokens(s: string): (r: nat)
    ensures r == RunStarts(s, false)
    ensures r == 0 <==> AllSpace(s)
  {
    WordsAreRuns(s);
    SplitWordsEmptyIff(s);
    |SplitWords(s)|
  }

  /** `sanitize_text`: `" ".join(text.split())`. */
  function Sanitize(s: string): (r: string)
    ensures Normalized(r)
    ensures SplitWords(r) == SplitWords(s)
  {
    JoinWordsNormalized(SplitWords(s));
    SplitWordsOfJoin(SplitWords(s));
    Join(SplitWords(s), " ")
  }

  // ---------------------------------------------------------------------
  // An independent reading of "number of words": a two-state scanner that
  // counts the positions where a non-whitespace run begins.

  /** Number of run starts in `s`, given whether the character before `s`
      was inside a run. */
  function RunStarts(s: string, inWord: bool): nat
    decreases |s|
  {
    if |s| == 0 then 0
    else if IsSpace(s[0]) then RunStarts(s[1..], false)
    else (if inWord then 0 else 1) + RunStarts(s[1..], true)
  }

  lemma {:induction false} RunStartsSkipWord(s: string)
    ensures RunStarts(s, true) == RunStarts(s[WordLen(s)..], false)
    decreases |s|
  {
    if |s| > 0 && !IsSpace(s[0]) {
      RunStartsSkipWord(s[1..]);
      assert s[1..][WordLen(s[1..])..] == s[WordLen(s)..];
    }
  }

  /** There are as many words as maximal non-whitespace runs. */
  lemma {:induction false} WordsAreRuns(s: string)
    ensures |SplitWords(s)| == RunStarts(s, false)
    decreases |s|
  {
    if |s| > 0 {
      if IsSpace(s[0]) {
        WordsAreRuns(s[1..]);
      } else {
        var n := WordLen(s);
        WordsAreRuns(s[n..]);
        RunStartsSkipWord(s[1..]);
        assert s[1..][WordLen(s[1..])..] == s[n..];
      }
    }
  }

  /** Words are separated by whitespace, so a text of `n` characters has
      at most `(n + 1) / 2` of them. */
  lemma {:induction false} RunStartsAtMostHalf(s: string, inWord: bool)
    ensures RunStarts(s, inWord) <= (|s| + (if inWord then 0 else 1)) / 2
    decreases |s|
  {
    if |s| > 0 {
      RunStartsAtMostHalf(s[1..], !IsSpace(s[0]));
    }
  }

  // ---------------------------------------------------------------------
  // Splitting words that were joined by single spaces.

  lemma {:induction false} WordLenAppend(x: string, y: string)
    requires WordLen(x) < |x| || |y| == 0 || IsSpace(y[0])
    ensures WordLen(x + y) == WordLen(x)
    decreases |x|
  {
    if |x| == 0 {
      assert x + y == y;
    } else if !IsSpace(x[0]) {
      assert (x + y)[1..] == x[1..] + y;
      WordLenAppend(x[1..], y);
    }
  }

  lemma SplitSpaceHead(x: string, y: string)
    requires |x| > 0 && IsSpace(x[0])
    ensures SplitWords(x + y) == SplitWords(x[1..] + y)
    ensures SplitWords(x) == SplitWords(x[1..])
  {
    assert (x + y)[0] == x[0];
    assert (x + y)[1..] == x[1..] + y;
  }

  lemma SplitWordHead(x: string, y: string)
    requires |x| > 0 && !IsSpace(x[0])
    requires IsSpace(x[|x| - 1]) || |y| == 0 || IsSpace(y[0])
    ensures 0 < WordLen(x) <= |x|
    ensures SplitWords(x + y) == [x[..WordLen(x)]] + SplitWords(x[WordLen(x)..] + y)
    ensures SplitWords(x) == [x[..WordLen(x)]] + SplitWords(x[WordLen(x)..])
  {
    var n := WordLen(x);
    if n == |x| {
      assert !IsSpace(x[|x| - 1]);
    }
    WordLenAppend(x, y);
    SliceAppend(x, y, n);
  }

  /** Splitting a concatenation whose seam falls on whitespace splits each
      side separately. */
  lemma {:induction false} SplitWordsAppend(x: string, y: string)
    requires |x| == 0 || IsSpace(x[|x| - 1]) || |y| == 0 || IsSpace(y[0])
    ensures SplitWords(x + y) == SplitWords(x) + SplitWords(y)
    decreases |x|, 1
  {
    if |x| == 0 {
      assert x + y == y;
    } else if IsSpace(x[0]) {
      SplitWordsAppendAfterSpace(x, y);
    } else {
      SplitWordsAppendAfterWord(x, y);
    }
  }

  lemma {:induction false} SplitWordsAppendAfterSpace(x: string, y: string)
    requires |x| > 0 && IsSpace(x[0])
    requires IsSpace(x[|x| - 1]) || |y| == 0 || IsSpace(y[0])
    ensures SplitWords(x + y) == SplitWords(x) + SplitWords(y)
    decreases |x|, 0
  {
    SplitSpaceHead(x, y);
    SplitWordsAppend(x[1..], y);
  }

  lemma {:induction false} SplitWordsAppendAfterWord(x: string, y: string)
    requires |x| > 0 && !IsSpace(x[0])
    requires IsSpace(x[|x| - 1]) || |y| == 0 || IsSpace(y[0])
    ensures SplitWords(x + y) == SplitWords(x) + SplitWords(y)
    decreases |x|, 0
  {
    var n := WordLen(x);
    var w := x[..n];
    var t := x[n..];
    var a := SplitWords(t);
    var b := SplitWords(y);
    assert SplitWords(x + y) == [w] + SplitWords(t + y) && SplitWords(x) == [w] + a by {
      SplitWordHead(x, y);
    }
    assert SplitWords(t + y) == a + b by {
      assert |t| == 0 || t[|t| - 1] == x[|x| - 1];
      SplitWordsAppend(t, y);
    }
    AppendAssoc([w], a, b);
  }

  lemma SplitWordsOfWord(w: string)
    requires IsWord(w)
    ensures SplitWords(w) == [w]
  {
    WordLenAppend(w, "");
    assert w + "" == w;
    assert WordLen(w) == |w|;
    assert w[..|w|] == w;
  }

  /** A leading space adds no word. */
  lemma SplitAfterSpace(s: string)
    ensures SplitWords(" " + s) == SplitWords(s)
  {
    SplitSpaceHead(" " + s, "");
    assert (" " + s)[1..] == s;
  }

  /** Joining words with single spaces and splitting again gives the words
      back. */
  lemma {:induction false} SplitWordsOfJoin(ws: seq<string>)
    requires forall k :: 0 <= k < |ws| ==> IsWord(ws[k])
    ensures SplitWords(Join(ws, " ")) == ws
    decreases |ws|
  {
    if |ws| == 1 {
      SplitWordsOfWord(ws[0]);
    } else if |ws| > 1 {
      var rest := Join(ws[1..], " ");
      assert SplitWords(" " + rest) == ws[1..] by {
        SplitWordsOfJoin(ws[1..]);
        SplitAfterSpace(rest);
      }
      assert SplitWords(ws[0] + (" " + rest)) == [ws[0]] + SplitWords(" " + rest) by {
        SplitWordsOfWord(ws[0]);
        SplitWordsAppend(ws[0], " " + rest);
      }
      assert Join(ws, " ") == ws[0] + (" " + rest) by {
        JoinCons(ws, " ");
      }
      assert [ws[0]] + ws[1..] == ws;
    }
  }

  // ---------------------------------------------------------------------
  // The normal form `sanitize_text` produces.

  /** No leading or trailing whitespace, and every whitespace character is
      a single ASCII space between two non-whitespace characters. */
  predicate Normalized(s: string) {
    forall i :: 0 <= i < |s| && IsSpace(s[i]) ==>
      s[i] == ' ' && 0 < i < |s| - 1 && !IsSpace(s[i - 1]) && !IsSpace(s[i + 1])
  }

  lemma {:induction false} JoinWordsEnds(ws: seq<string>)
    requires |ws| > 0
    requires forall k :: 0 <= k < |ws| ==> IsWord(ws[k])
    ensures |Join(ws, " ")| > 0
    ensures !IsSpace(Join(ws, " ")[0])
    ensures !IsSpace(Join(ws, " ")[|Join(ws, " ")| - 1])
    decreases |ws|
  {
    if |ws| > 1 {
      JoinWordsEnds(ws[1..]);
    }
  }

  lemma {:induction false} JoinWordsNormalized(ws: seq<string>)
    requires forall k :: 0 <= k < |ws| ==> IsWord(ws[k])
    ensures Normalized(Join(ws, " "))
    decreases |ws|
  {
    if |ws| > 1 {
      var w := ws[0];
      var rest := Join(ws[1..], " ");
      var s := Join(ws, " ");
      JoinWordsNormalized(ws[1..]);
      JoinWordsEnds(ws[1..]);
      assert s == w + " " + rest;
      forall i | 0 <= i < |s| && IsSpace(s[i])
        ensures s[i] == ' ' && 0 < i < |s| - 1 && !IsSpace(s[i - 1]) && !IsSpace(s[i + 1])
      {
        if i > |w| {
          assert s[i] == rest[i - |w| - 1];
          assert s[i - 1] == (if i - 1 == |w| then ' ' else rest[i - |w| - 2]);
          assert s[i + 1] == rest[i - |w|];
        }
      }
    }
  }

  /** What follows the first word and its single space is still
      normalised. */
  lemma NormalizedTail(s: string, n: nat)
    requires Normalized(s) && n < |s| && IsSpace(s[n])
    ensures n + 1 < |s| && !IsSpace(s[n + 1]) && s[n] == ' '
    ensures Normalized(s[n + 1..])
  {
    var t := s[n + 1..];
    forall k | 0 <= k < |t| && IsSpace(t[k])
      ensures t[k] == ' ' && 0 < k < |t| - 1 && !IsSpace(t[k - 1]) && !IsSpace(t[k + 1])
    {
      assert t[k] == s[n + 1 + k];
    }
  }

  /** A single word is left alone. */
  lemma SanitizeWord(s: string)
    requires 0 < WordLen(s) == |s|
    ensures Sanitize(s) == s
  {
    assert IsWord(s[..|s|]);
    assert s[..|s|] == s;
    SplitWordsOfWord(s);
  }

  /** A word, one space and a fixed point of `sanitize_text` make a fixed
      point. */
  lemma SanitizeWordSpace(s: string, n: nat)
    requires 0 < n == WordLen(s) && n + 1 < |s| && s[n] == ' ' && !IsSpace(s[n + 1])
    requires Sanitize(s[n + 1..]) == s[n + 1..]
    ensures Sanitize(s) == s
  {
    var w := s[..n];
    var t := s[n + 1..];
    var rest := SplitWords(t);
    var u := s[n..];
    assert SplitWords(s) == [w] + SplitWords(u) by {
      SplitWordHead(s, "");
    }
    assert SplitWords(u) == rest by {
      SplitSpaceHead(u, "");
      assert u[1..] == t;
    }
    assert |rest| > 0 by {
      assert t[0] == s[n + 1];
    }
    assert Join([w] + rest, " ") == w + (" " + Join(rest, " ")) by {
      JoinCons([w] + rest, " ");
      assert ([w] + rest)[1..] == rest;
    }
    assert s == w + (" " + t) by {
      SliceAround(s, n);
      assert [s[n]] == " ";
    }
  }

  /** Normalised text is exactly the text `sanitize_text` leaves alone. */
  lemma {:induction false} NormalizedIsFixpoint(s: string)
    requires Normalized(s)
    ensures Sanitize(s) == s
    decreases |s|
  {
    if |s| > 0 {
      assert !IsSpace(s[0]);
      var n := WordLen(s);
      if n == |s| {
        SanitizeWord(s);
      } else {
        NormalizedTail(s, n);
        NormalizedIsFixpoint(s[n + 1..]);
        SanitizeWordSpace(s, n);
      }
    }
  }

  /** `sanitize_text` is idempotent. */
  lemma SanitizeIdempotent(s: string)
    ensures Sanitize(Sanitize(s)) == Sanitize(s)
  {
    NormalizedIsFixpoint(Sanitize(s));
  }

  lemma {:induction false} SplitWordsEmptyIff(s: string)
    ensures SplitWords(s) == [] <==> AllSpace(s)
    decreases |s|
  {
    if |s| > 0 && IsSpace(s[0]) {
      SplitWordsEmptyIff(s[1..]);
      assert AllSpace(s) <==> AllSpace(s[1..]) by {
        assert forall i :: 0 < i < |s| ==> s[i] == s[1..][i - 1];
      }
    }
  }

  /** `sanitize_text` returns the empty string exactly for whitespace-only
      input. */
  lemma SanitizeEmptyIff(s: string)
    ensures Sanitize(s) == "" <==> AllSpace(s)
  {
    SplitWordsEmptyIff(s);
    if SplitWords(s) != [] {
      JoinWordsEnds(SplitWords(s));
    }
  }

  /** `not sanitize_text(text).strip()` holds exactly when the text itself
      is whitespace only. */
  lemma SanitizedBlankIff(s: string)
    ensures AllSpace(Sanitize(s)) <==> AllSpace(s)
  {
    SanitizeEmptyIff(s);
    if SplitWords(s) != [] {
      JoinWordsEnds(SplitWords(s));
    }
  }

  // ---------------------------------------------------------------------
  // Dynamic chunk size.

  /** `LLM_TOKEN_LIMIT`. */
  const LlmTokenLimit: nat := 4096
  /** `BASE_CHUNK_SIZE`, the default `base_size`. */
  const BaseChunkSize: int := 1000
  /** `MIN_CHUNK_SIZE`, the default `min_size`. */
  const MinChunkSize: int := 500
  /** The `chunk_overlap` both services give the langchain splitter. */
  const ChunkOverlap: nat := 100

  function Max(a: int, b: int): int {
    if a >= b then a else b
  }

  /** Python `int(x)` of the exact quotient `a / b`: rounds toward zero. */
  function TruncDiv(a: int, b: int): int
    requires b > 0
  {
    if a >= 0 then a / b else -((-a) / b)
  }

  lemma DivBounds(a: int, b: int)
    requires a >= 0 && b > 0
    ensures (a / b) * b <= a < (a / b + 1) * b
  {
  }

  lemma ScaledBounds(baseSize: int, tokens: nat)
    requires tokens > LlmTokenLimit
    ensures 0 <= baseSize ==>
      var q := TruncDiv(baseSize * LlmTokenLimit, tokens);
      q * tokens <= baseSize * LlmTokenLimit < (q + 1) * tokens && q <= baseSize
    ensures baseSize < 0 ==>
      var q := TruncDiv(baseSize * LlmTokenLimit, tokens);
      (q - 1) * tokens < baseSize * LlmTokenLimit <= q * tokens
  {
    var q := TruncDiv(baseSize * LlmTokenLimit, tokens);
    if 0 <= baseSize {
      DivBounds(baseSize * LlmTokenLimit, tokens);
      assert q * tokens <= baseSize * tokens;
    } else {
      DivBounds(-(baseSize * LlmTokenLimit), tokens);
    }
  }

  /** The floor `q` of `a / t` is at most `m` exactly when
      `a < (m + 1) * t`. */
  lemma FloorAtMost(a: int, t: int, q: int, m: int)
    requires t > 0 && q * t <= a < (q + 1) * t
    ensures q <= m <==> a < (m + 1) * t
  {
    if q <= m {
      MulMonotone(q + 1, m + 1, t);
    } else {
      MulMonotone(m + 1, q, t);
    }
  }

  /** The ceiling `q` of `a / t` (what truncation gives for a negative
      `a`) is at most `m` exactly when `a <= m * t`. */
  lemma CeilAtMost(a: int, t: int, q: int, m: int)
    requires t > 0 && (q - 1) * t < a <= q * t
    ensures q <= m <==> a <= m * t
  {
    if q <= m {
      MulMonotone(q, m, t);
    } else {
      MulMonotone(m, q - 1, t);
    }
  }

  /** The chunk size for a text of `tokens` words: `base_size` up to the
      limit, beyond it `base_size` scaled by `limit / tokens` (rounded toward
      zero) but never below `min_size`. */
  function ChunkSizeForTokens(tokens: nat, baseSize: int, minSize: int): (r: int)
    ensures tokens <= LlmTokenLimit ==> r == baseSize
    ensures tokens > LlmTokenLimit ==> r >= minSize
    ensures tokens > LlmTokenLimit && 0 <= baseSize && r != minSize ==>
      r * tokens <= baseSize * LlmTokenLimit < (r + 1) * tokens
    ensures tokens > LlmTokenLimit && 0 <= baseSize && r == minSize ==>
      baseSize * LlmTokenLimit < (minSize + 1) * tokens
    ensures tokens > LlmTokenLimit && baseSize < 0 && r != minSize ==>
      (r - 1) * tokens < baseSize * LlmTokenLimit <= r * tokens
    ensures tokens > LlmTokenLimit && baseSize < 0 && r == minSize ==>
      baseSize * LlmTokenLimit <= minSize * tokens
    ensures 0 <= baseSize && minSize <= baseSize ==> minSize <= r <= baseSize
  {
    if tokens > LlmTokenLimit then
      var scaled := TruncDiv(baseSize * LlmTokenLimit, tokens);
      ScaledBounds(baseSize, tokens);
      if 0 <= baseSize then
        FloorAtMost(baseSize * LlmTokenLimit, tokens, scaled, minSize);
        Max(scaled, minSize)
      else
        CeilAtMost(baseSize * LlmTokenLimit, tokens, scaled, minSize);
        Max(scaled, minSize)
    else baseSize
  }

  /** `determine_chunk_size(text, base_size, min_size)`: the base size
      while the text's token count is within the limit, beyond it the base
      size scaled by `limit / tokens` rounded down, but at least the
      minimum. */
  function DetermineChunkSize(text: string, baseSize: int, minSize: int): (r: int)
    ensures CountTokens(text) <= LlmTokenLimit ==> r == baseSize
    ensures CountTokens(text) > LlmTokenLimit ==> r >= minSize
    ensures CountTokens(text) > LlmTokenLimit && 0 <= baseSize && r != minSize ==>
      r * CountTokens(text) <= baseSize * LlmTokenLimit < (r + 1) * CountTokens(text)
    ensures CountTokens(text) > LlmTokenLimit && 0 <= baseSize && r == minSize ==>
      baseSize * LlmTokenLimit < (minSize + 1) * CountTokens(text)
    ensures 0 <= baseSize && minSize <= baseSize ==> minSize <= r <= baseSize
  {
    ChunkSizeForTokens(CountTokens(text), baseSize, minSize)
  }

  lemma MulMonotone(x: int, y: int, b: int)
    requires x <= y && b >= 0
    ensures x * b <= y * b
  {
    assert y * b - x * b == (y - x) * b;
  }

  lemma FloorDivAntitone(a: int, b1: int, b2: int)
    requires a >= 0 && 0 < b1 <= b2
    ensures a / b2 <= a / b1
  {
    var q1, q2 := a / b1, a / b2;
    DivBounds(a, b1);
    DivBounds(a, b2);
    if q2 >= q1 + 1 {
      MulMonotone(q1 + 1, q2, b1);
      MulMonotone(b1, b2, q2);
      assert false;
    }
  }

  /** More tokens never give a larger chunk size (with a non-negative base
      at least the minimum, as the defaults 1000 and 500 are). */
  lemma ChunkSizeAntitone(t1: nat, t2: nat, baseSize: int, minSize: int)
    requires t1 <= t2
    requires 0 <= baseSize && minSize <= baseSize
    ensures ChunkSizeForTokens(t2, baseSize, minSize) <= ChunkSizeForTokens(t1, baseSize, minSize)
  {
    if t1 > LlmTokenLimit {
      FloorDivAntitone(baseSize * LlmTokenLimit, t1, t2);
    }
  }
}
