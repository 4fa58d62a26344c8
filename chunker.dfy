/**
  The naive word-window splitter of the backend (`chunk_text`): the text is
  split on whitespace into words, and windows of at most `chunkSize` words
  are emitted, each starting `chunkSize - overlap` words after the previous
  one, until a window starts at or past the last word. Each window is
  re-joined with single spaces.
 */
module Chunker {
  import opened Text

  function Min(a: int, b: int): int {
    if a <= b then a else b
  }

  /** Ceiling of `n / d` for a positive divisor. */
  function CeilDiv(n: nat, d: nat): nat
    requires d > 0
  {
    (n + d - 1) / d
  }

  /** The window of `size` words that starts at word `start`, cut at the end of the text. */
  function Window(words: seq<string>, start: nat, size: nat): seq<string>
    requires start <= |words|
  {
    words[start..Min(start + size, |words|)]
  }

  /** The chunks whose windows start at `start`, `start + step`, ... while before the last word. */
  function WindowsFrom(words: seq<string>, start: nat, size: nat, step: nat): (windows: seq<string>)
    requires step > 0
    ensures windows == [] <==> start >= |words|
    ensures start < |words| ==> windows[0] == Join(" ", Window(words, start, size))
    decreases |words| - start
  {
    if start >= |words| then []
    else [Join(" ", Window(words, start, size))] + WindowsFrom(words, start + step, size, step)
  }

  /** How many words each window starts after the previous one. */
  function Stride(chunkSize: nat, overlap: int): nat
    requires overlap < chunkSize
  {
    chunkSize - overlap
  }

  /** What the splitter returns for `text`. */
  function Chunks(text: string, chunkSize: nat, overlap: int): (chunks: seq<string>)
    requires overlap < chunkSize
    ensures chunks == [] <==> AllSpace(text)
  {
    SplitEmptyIff(text);
    WindowsFrom(Split(text), 0, chunkSize, Stride(chunkSize, overlap))
  }

  /**
    The splitter itself. The loop only terminates when the step
    `chunkSize - overlap` is positive, which is what the precondition asks.
   */
  method ChunkText(text: string, chunkSize: nat, overlap: int) returns (chunks: seq<string>)
    requires overlap < chunkSize
    ensures chunks == Chunks(text, chunkSize, overlap)
    ensures |chunks| == CeilDiv(|Split(text)|, Stride(chunkSize, overlap))
  {
    var words := Split(text);
    var step := Stride(chunkSize, overlap);
    chunks := [];
    var start: nat := 0;
    while start < |words|
      invariant chunks + WindowsFrom(words, start, chunkSize, step) == WindowsFrom(words, 0, chunkSize, step)
      decreases |words| - start
    {
      var end := Min(start + chunkSize, |words|);
      var chunkWords := words[start..end];
      var chunk := Join(" ", chunkWords);
      chunks := chunks + [chunk];
      start := start + step;
    }
    ChunkCount(text, chunkSize, overlap);
  }

  // ---------------------------------------------------------------
  // Arithmetic of the window starts
  // ---------------------------------------------------------------

  lemma CeilDivOne(m: nat, d: nat)
    requires 0 < m <= d
    ensures CeilDiv(m, d) == 1
  {
  }

  lemma CeilDivStep(m: nat, d: nat)
    requires 0 < d < m
    ensures CeilDiv(m, d) == 1 + CeilDiv(m - d, d)
  {
    var x := m - 1;
    assert CeilDiv(m, d) == (x + d) / d;
    assert CeilDiv(m - d, d) == x / d;
    DivPlusDivisor(x, d);
  }

  lemma DivPlusDivisor(x: nat, d: nat)
    requires d > 0
    ensures (x + d) / d == x / d + 1
  {
    var q, r := x / d, x % d;
    assert x == q * d + r && 0 <= r < d;
    assert x + d == (q + 1) * d + r;
    DivUnique(x + d, d, q + 1, r);
  }

  lemma DivUnique(x: int, d: int, q: int, r: int)
    requires d > 0 && 0 <= r < d && x == q * d + r
    ensures x / d == q
  {
    var q', r' := x / d, x % d;
    assert x == q' * d + r' && 0 <= r' < d;
    if q' < q {
      assert q' * d + d <= q * d by { MulMono(q' + 1, q, d); }
    } else if q' > q {
      assert q * d + d <= q' * d by { MulMono(q + 1, q', d); }
    }
  }

  lemma MulMono(a: int, b: int, d: int)
    requires a <= b && d > 0
    ensures a * d <= b * d
  {
  }

  // ---------------------------------------------------------------
  // Count and shape of the chunks
  // ---------------------------------------------------------------

  /** The number of windows from `start` is the ceiling of the remaining words over the step. */
  lemma {:induction false} WindowsFromLength(words: seq<string>, start: nat, size: nat, step: nat)
    requires step > 0
    ensures |WindowsFrom(words, start, size, step)| == if start >= |words| then 0 else CeilDiv(|words| - start, step)
    decreases |words| - start
  {
    if start < |words| {
      WindowsFromLength(words, start + step, size, step);
      if start + step >= |words| {
        CeilDivOne(|words| - start, step);
      } else {
        CeilDivStep(|words| - start, step);
      }
    }
  }

  /** Window `i` from `start` begins at word `start + i * step`, which is before the last word. */
  lemma {:induction false} WindowsFromAt(words: seq<string>, start: nat, size: nat, step: nat, i: nat)
    requires step > 0
    requires i < |WindowsFrom(words, start, size, step)|
    ensures start + i * step < |words|
    ensures WindowsFrom(words, start, size, step)[i] == Join(" ", Window(words, start + i * step, size))
    decreases i
  {
    if i > 0 {
      var rest := WindowsFrom(words, start + step, size, step);
      assert start < |words|;
      assert WindowsFrom(words, start, size, step) == [Join(" ", Window(words, start, size))] + rest;
      WindowsFromAt(words, start + step, size, step, i - 1);
      MulPred(i, step);
    }
  }

  lemma MulPred(i: nat, step: nat)
    requires i > 0
    ensures step + (i - 1) * step == i * step
  {
  }

  /** The splitter returns ceil(n / (chunkSize - overlap)) chunks for a text of n words. */
  lemma ChunkCount(text: string, chunkSize: nat, overlap: int)
    requires overlap < chunkSize
    ensures |Chunks(text, chunkSize, overlap)| == CeilDiv(|Split(text)|, Stride(chunkSize, overlap))
  {
    WindowsFromLength(Split(text), 0, chunkSize, Stride(chunkSize, overlap));
  }

  /** Splitting a window of words again gives back exactly that window. */
  lemma WindowRoundTrip(words: seq<string>, start: nat, size: nat)
    requires start < |words| && size > 0
    requires forall k :: 0 <= k < |words| ==> IsWord(words[k])
    ensures Split(Join(" ", Window(words, start, size))) == Window(words, start, size)
    ensures 1 <= |Window(words, start, size)| <= size
  {
    var w := Window(words, start, size);
    assert forall k :: 0 <= k < |w| ==> w[k] == words[start + k];
    SplitJoinRoundTrip(w);
  }

  /**
    Chunk i is the single-space join of the window of at most chunkSize
    words that starts at word i*s, where s = chunkSize - overlap, and that
    start is before the last word.
   */
  lemma ChunkAt(text: string, chunkSize: nat, overlap: int, i: nat)
    requires 0 <= overlap < chunkSize
    requires i < |Chunks(text, chunkSize, overlap)|
    ensures i * Stride(chunkSize, overlap) < |Split(text)|
    ensures Chunks(text, chunkSize, overlap)[i] == Join(" ", Window(Split(text), i * Stride(chunkSize, overlap), chunkSize))
  {
    WindowsFromAt(Split(text), 0, chunkSize, Stride(chunkSize, overlap), i);
  }

  /**
    Splitting chunk i again gives exactly its window of words, which holds
    between 1 and chunkSize words.
   */
  lemma ChunkWords(text: string, chunkSize: nat, overlap: int, i: nat)
    requires 0 <= overlap < chunkSize
    requires i < |Chunks(text, chunkSize, overlap)|
    ensures i * Stride(chunkSize, overlap) < |Split(text)|
    ensures Split(Chunks(text, chunkSize, overlap)[i]) == Window(Split(text), i * Stride(chunkSize, overlap), chunkSize)
    ensures 1 <= |Split(Chunks(text, chunkSize, overlap)[i])| <= chunkSize
  {
    var start := i * Stride(chunkSize, overlap);
    ChunkAt(text, chunkSize, overlap, i);
    WindowRoundTrip(Split(text), start, chunkSize);
  }

  /** Word j lies in window j / step, at position j - (j / step) * step, when step <= size. */
  lemma WindowsCoverage(words: seq<string>, size: nat, step: nat, j: nat)
    requires 0 < step <= size
    requires j < |words|
    ensures j / step < |WindowsFrom(words, 0, size, step)|
    ensures (j / step) * step <= j < Min((j / step) * step + size, |words|)
  {
    var i := j / step;
    assert i * step <= j < i * step + step by {
      assert j == i * step + j % step;
    }
    WindowsFromLength(words, 0, size, step);
    assert i < CeilDiv(|words|, step) by {
      DivMono(j + step, |words| + step - 1, step);
      DivPlusDivisor(j, step);
    }
  }

  /**
    With a non-negative overlap every word of the text lands in a chunk:
    word j of the text is word j - i*s of chunk i = j / s, where
    s = chunkSize - overlap.
   */
  lemma ChunkCoverage(text: string, chunkSize: nat, overlap: int, j: nat)
    requires 0 <= overlap < chunkSize
    requires j < |Split(text)|
    ensures var s := Stride(chunkSize, overlap);
            var chunks := Chunks(text, chunkSize, overlap);
            && j / s < |chunks|
            && (j / s) * s <= j
            && j - (j / s) * s < |Split(chunks[j / s])|
            && Split(chunks[j / s])[j - (j / s) * s] == Split(text)[j]
  {
    WindowsCover(Split(text), chunkSize, Stride(chunkSize, overlap), j);
  }

  /** For words as `split()` yields them and step <= size, word j is word j - i*step of window i = j / step. */
  lemma WindowsCover(words: seq<string>, size: nat, step: nat, j: nat)
    requires 0 < step <= size
    requires j < |words|
    requires forall k :: 0 <= k < |words| ==> IsWord(words[k])
    ensures var windows := WindowsFrom(words, 0, size, step);
            && j / step < |windows|
            && (j / step) * step <= j
            && j - (j / step) * step < |Split(windows[j / step])|
            && Split(windows[j / step])[j - (j / step) * step] == words[j]
  {
    var i := j / step;
    WindowsCoverage(words, size, step, j);
    WindowsCoverAt(words, size, step, i, j);
  }

  /** A word inside window i is found in that window's chunk, at its offset in the window. */
  lemma WindowsCoverAt(words: seq<string>, size: nat, step: nat, i: nat, j: nat)
    requires 0 < step <= size
    requires i < |WindowsFrom(words, 0, size, step)|
    requires forall k :: 0 <= k < |words| ==> IsWord(words[k])
    requires i * step <= j < Min(i * step + size, |words|)
    ensures var windows := WindowsFrom(words, 0, size, step);
            j - i * step < |Split(windows[i])| && Split(windows[i])[j - i * step] == words[j]
  {
    var start := i * step;
    WindowsFromAt(words, 0, size, step, i);
    WindowRoundTrip(words, start, size);
    WindowIndex(words, start, size, j);
  }

  /** Word j of the text is word j - start of a window that spans it. */
  lemma WindowIndex(words: seq<string>, start: nat, size: nat, j: nat)
    requires start <= j < Min(start + size, |words|)
    ensures j - start < |Window(words, start, size)| && Window(words, start, size)[j - start] == words[j]
  {
  }


  lemma DivMono(x: nat, y: nat, d: nat)
    requires x <= y && d > 0
    ensures x / d <= y / d
  {
    if x / d > y / d {
      var qx, qy := x / d, y / d;
      assert y == qy * d + y % d;
      assert x == qx * d + x % d;
      MulMono(qy + 1, qx, d);
    }
  }

  /** 200 words with window 200 and overlap 20: two chunks, the second holding words 180..199. */
  lemma TwoHundredWords(text: string)
    requires |Split(text)| == 200
    ensures |Chunks(text, 200, 20)| == 2
    ensures Chunks(text, 200, 20)[0] == Join(" ", Split(text))
    ensures Chunks(text, 200, 20)[1] == Join(" ", Split(text)[180..200])
  {
    ChunkCount(text, 200, 20);
    ChunkAt(text, 200, 20, 0);
    ChunkAt(text, 200, 20, 1);
    assert Split(text)[0..200] == Split(text);
  }

  /** 210 words with window 200 and overlap 20: two chunks, the second starting at word 180. */
  lemma TwoHundredTenWords(text: string)
    requires |Split(text)| == 210
    ensures |Chunks(text, 200, 20)| == 2
    ensures Chunks(text, 200, 20)[0] == Join(" ", Split(text)[0..200])
    ensures Chunks(text, 200, 20)[1] == Join(" ", Split(text)[180..210])
  {
    ChunkCount(text, 200, 20);
    ChunkAt(text, 200, 20, 0);
    ChunkAt(text, 200, 20, 1);
  }
}
