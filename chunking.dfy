/** The sliding-window chunker `_chunk_text` of the retrieval index. */
module Chunking {
  import PyStr

  const DefaultChunkSize: int := 1200
  const DefaultOverlap: int := 200

  /** How Python normalises the upper bound `b` of a slice `s[a:b]` of a
      sequence of length `n`: negative bounds count from the end. */
  function SliceBound(n: nat, b: int): (e: nat)
    ensures e <= n
  {
    if b < 0 then (if b + n < 0 then 0 else b + n) else (if b < n then b else n)
  }

  /** Python's `s[a:b]` for a start `a` inside the sequence. */
  function PySlice(s: string, a: nat, b: int): (r: string)
    requires a <= |s|
    ensures a < SliceBound(|s|, b) ==> r == s[a..SliceBound(|s|, b)]
    ensures SliceBound(|s|, b) <= a ==> r == []
  {
    var e := SliceBound(|s|, b);
    if a < e then s[a..e] else []
  }

  /** `end = min(n, start + chunk_size)`. */
  function WindowEnd(n: nat, start: int, chunkSize: int): int
  {
    if n < start + chunkSize then n else start + chunkSize
  }

  /** `start = max(end - overlap, start + 1)`. */
  function NextStart(n: nat, start: int, chunkSize: int, overlap: int): (next: int)
    ensures next > start
  {
    var e := WindowEnd(n, start, chunkSize) - overlap;
    if e > start + 1 then e else start + 1
  }

  /** The window starts the loop visits from `start` on. */
  function StartsFrom(n: nat, start: nat, chunkSize: int, overlap: int): (st: seq<nat>)
    ensures |st| <= n - start || (start >= n && st == [])
    ensures start < n ==> st != [] && st[0] == start
    ensures forall i :: 0 <= i < |st| ==> start <= st[i] < n
    ensures forall i :: 0 <= i < |st| - 1 ==> st[i + 1] == NextStart(n, st[i], chunkSize, overlap)
    ensures forall i, j :: 0 <= i < j < |st| ==> st[i] < st[j]
    decreases n - start
  {
    if start >= n then []
    else [start] + StartsFrom(n, NextStart(n, start, chunkSize, overlap), chunkSize, overlap)
  }

  /** The chunks the loop appends once `start` has reached the given value. */
  function ChunksFrom(text: string, start: nat, chunkSize: int, overlap: int): seq<string>
    decreases |text| - start
  {
    if start >= |text| then []
    else
      [PySlice(text, start, WindowEnd(|text|, start, chunkSize))]
      + ChunksFrom(text, NextStart(|text|, start, chunkSize, overlap), chunkSize, overlap)
  }

  /** What `_chunk_text(text, chunk_size, overlap)` returns. */
  function Chunks(text: string, chunkSize: int, overlap: int): seq<string>
  {
    ChunksFrom(text, 0, chunkSize, overlap)
  }

  /** `_chunk_text`: the loop itself. It terminates for every chunk size and
      overlap, because each step moves `start` forward by at least one. */
  method ChunkText(text: string, chunkSize: int, overlap: int) returns (chunks: seq<string>)
    ensures chunks == Chunks(text, chunkSize, overlap)
  {
    chunks := [];
    var start: int := 0;
    var n := |text|;
    while start < n
      invariant 0 <= start
      invariant chunks + ChunksFrom(text, start, chunkSize, overlap) == Chunks(text, chunkSize, overlap)
      decreases n - start
    {
      var end := if n < start + chunkSize then n else start + chunkSize;
      var chunk := PySlice(text, start, end);
      var next := if end - overlap > start + 1 then end - overlap else start + 1;
      assert ChunksFrom(text, start, chunkSize, overlap) == [chunk] + ChunksFrom(text, next, chunkSize, overlap);
      PyStr.SnocAssoc(chunks, chunk, ChunksFrom(text, next, chunkSize, overlap));
      chunks := chunks + [chunk];
      start := next;
    }
  }

  // ---------------------------------------------------------------------
  // Shape of the result

  /** Chunk i is the slice starting at the i-th start: `text[s_i : min(n, s_i + chunk_size)]`,
      where the starts begin at `start` and follow `NextStart`. */
  lemma {:induction false} ChunksAreWindows(text: string, start: nat, chunkSize: int, overlap: int)
    ensures var st := StartsFrom(|text|, start, chunkSize, overlap);
            var cs := ChunksFrom(text, start, chunkSize, overlap);
            |cs| == |st| &&
            forall i :: 0 <= i < |cs| ==> cs[i] == PySlice(text, st[i], WindowEnd(|text|, st[i], chunkSize))
    decreases |text| - start
  {
    if start < |text| {
      var next := NextStart(|text|, start, chunkSize, overlap);
      ChunksAreWindows(text, next, chunkSize, overlap);
      var st := StartsFrom(|text|, start, chunkSize, overlap);
      var cs := ChunksFrom(text, start, chunkSize, overlap);
      var st' := StartsFrom(|text|, next, chunkSize, overlap);
      var cs' := ChunksFrom(text, next, chunkSize, overlap);
      assert st == [start] + st';
      assert cs == [PySlice(text, start, WindowEnd(|text|, start, chunkSize))] + cs';
      forall i | 0 <= i < |cs|
        ensures cs[i] == PySlice(text, st[i], WindowEnd(|text|, st[i], chunkSize))
      {
        if i > 0 {
          assert cs[i] == cs'[i - 1] && st[i] == st'[i - 1];
        }
      }
    }
  }

  /** At most one chunk per character, and none for the empty text, whatever
      the chunk size and overlap. */
  lemma ChunkCountBound(text: string, chunkSize: int, overlap: int)
    ensures |Chunks(text, chunkSize, overlap)| <= |text|
    ensures text == [] ==> Chunks(text, chunkSize, overlap) == []
  {
    ChunksAreWindows(text, 0, chunkSize, overlap);
  }

  /** With a positive chunk size and a non-negative overlap, each window
      starts no later than the previous one ended. */
  lemma NoGapBetweenWindows(n: nat, start: nat, chunkSize: int, overlap: int)
    requires chunkSize >= 1 && overlap >= 0
    ensures var st := StartsFrom(n, start, chunkSize, overlap);
            forall i :: 0 <= i < |st| - 1 ==> st[i + 1] <= WindowEnd(n, st[i], chunkSize)
  {
  }

  /** With a positive chunk size and a non-negative overlap, the last window
      ends at the end of the text. */
  lemma {:induction false} LastWindowReachesEnd(n: nat, start: nat, chunkSize: int, overlap: int)
    requires chunkSize >= 1 && overlap >= 0 && start < n
    ensures var st := StartsFrom(n, start, chunkSize, overlap);
            WindowEnd(n, st[|st| - 1], chunkSize) == n
    decreases n - start
  {
    var next := NextStart(n, start, chunkSize, overlap);
    if next < n {
      LastWindowReachesEnd(n, next, chunkSize, overlap);
      assert StartsFrom(n, start, chunkSize, overlap)[1..] == StartsFrom(n, next, chunkSize, overlap);
    }
  }

  /** With a positive chunk size and a non-negative overlap, every character
      of the text lies in some window, and that chunk holds it. */
  lemma {:induction false} EveryIndexCovered(text: string, chunkSize: int, overlap: int, k: nat)
    requires chunkSize >= 1 && overlap >= 0 && k < |text|
    ensures var st := StartsFrom(|text|, 0, chunkSize, overlap);
            var cs := Chunks(text, chunkSize, overlap);
            exists i :: 0 <= i < |st| && st[i] <= k < WindowEnd(|text|, st[i], chunkSize)
                        && |cs| == |st| && k - st[i] < |cs[i]| && cs[i][k - st[i]] == text[k]
  {
    var n := |text|;
    var st := StartsFrom(n, 0, chunkSize, overlap);
    var cs := Chunks(text, chunkSize, overlap);
    ChunksAreWindows(text, 0, chunkSize, overlap);
    LastWindowReachesEnd(n, 0, chunkSize, overlap);
    NoGapBetweenWindows(n, 0, chunkSize, overlap);
    // the last window whose start is at most k covers k
    var i := 0;
    while i + 1 < |st| && st[i + 1] <= k
      invariant 0 <= i < |st| && st[i] <= k
      decreases |st| - i
    {
      i := i + 1;
    }
    var e := WindowEnd(n, st[i], chunkSize);
    assert k < e;
    assert cs[i] == PySlice(text, st[i], e);
    WindowHolds(text, st[i], e, k);
  }

  /** The window `[s, e)` holds character k at offset `k - s`. */
  lemma WindowHolds(text: string, s: nat, e: int, k: nat)
    requires s <= k < e <= |text|
    ensures |PySlice(text, s, e)| == e - s && PySlice(text, s, e)[k - s] == text[k]
  {
    assert SliceBound(|text|, e) == e;
  }

  /** A window that stops short of the end shares exactly `overlap`
      characters with the next window when `0 <= overlap < chunk_size`. */
  lemma ConsecutiveOverlap(text: string, start: nat, chunkSize: int, overlap: int)
    requires 0 <= overlap < chunkSize
    requires start + chunkSize < |text|
    ensures var cs := ChunksFrom(text, start, chunkSize, overlap);
            |cs| >= 2 && |cs[0]| == chunkSize && |cs[1]| >= overlap
            && cs[0][chunkSize - overlap..] == cs[1][..overlap]
  {
    var next := start + chunkSize - overlap;
    assert NextStart(|text|, start, chunkSize, overlap) == next;
    var e := WindowEnd(|text|, next, chunkSize);
    var first := text[start..start + chunkSize];
    var second := text[next..e];
    assert ChunksFrom(text, next, chunkSize, overlap)[0] == second;
    assert ChunksFrom(text, start, chunkSize, overlap)
        == [first] + ChunksFrom(text, next, chunkSize, overlap);
    assert e >= start + chunkSize;
    assert |second| >= overlap;
    assert first[chunkSize - overlap..] == text[next..start + chunkSize];
    assert second[..overlap] == text[next..next + overlap];
  }

  // ---------------------------------------------------------------------
  // The tail

  /** The suffixes `text[t:]` for t from `from` up to `n - 1`. */
  function Suffixes(text: string, from: nat): (r: seq<string>)
    ensures |r| == if from < |text| then |text| - from else 0
    ensures forall i :: 0 <= i < |r| ==> r[i] == text[from + i..]
    decreases |text| - from
  {
    if from >= |text| then [] else [text[from..]] + Suffixes(text, from + 1)
  }

  lemma {:induction false} TailIsSuffixes(text: string, t: nat, chunkSize: int, overlap: int)
    requires t + chunkSize >= |text| && t >= |text| - overlap
    ensures ChunksFrom(text, t, chunkSize, overlap) == Suffixes(text, t)
    decreases |text| - t
  {
    if t < |text| {
      assert WindowEnd(|text|, t, chunkSize) == |text|;
      assert PySlice(text, t, |text|) == text[t..];
      assert NextStart(|text|, t, chunkSize, overlap) == t + 1;
      TailIsSuffixes(text, t + 1, chunkSize, overlap);
      assert ChunksFrom(text, t, chunkSize, overlap)
          == [text[t..]] + ChunksFrom(text, t + 1, chunkSize, overlap);
    }
  }

  /** The chunker does not stop at the first window that reaches the end of
      the text: from that window's start s it goes on to emit every suffix
      `text[t:]` with `max(n - overlap, s + 1) <= t < n`. */
  lemma TailBehaviour(text: string, s: nat, chunkSize: int, overlap: int)
    requires s < |text| && s + chunkSize >= |text|
    ensures var n := |text|;
            var t := if n - overlap > s + 1 then n - overlap else s + 1;
            ChunksFrom(text, s, chunkSize, overlap) == [text[s..]] + Suffixes(text, t)
  {
    var n := |text|;
    var t := if n - overlap > s + 1 then n - overlap else s + 1;
    assert WindowEnd(n, s, chunkSize) == n;
    assert PySlice(text, s, n) == text[s..];
    assert NextStart(n, s, chunkSize, overlap) == t;
    TailIsSuffixes(text, t, chunkSize, overlap);
    assert ChunksFrom(text, s, chunkSize, overlap) == [text[s..]] + ChunksFrom(text, t, chunkSize, overlap);
  }

  /** A 3000-character text with the default sizes gives 203 chunks:
      the three windows at 0, 1000 and 2000, then the 200 suffixes starting at
      2800, ..., 2999. */
  lemma DefaultSizesOn3000(text: string)
    requires |text| == 3000
    ensures var cs := Chunks(text, DefaultChunkSize, DefaultOverlap);
            |cs| == 203
            && cs[0] == text[0..1200] && cs[1] == text[1000..2200] && cs[2] == text[2000..]
            && forall i :: 3 <= i < 203 ==> cs[i] == text[2800 + (i - 3)..]
  {
    assert NextStart(3000, 0, 1200, 200) == 1000;
    assert NextStart(3000, 1000, 1200, 200) == 2000;
    TailBehaviour(text, 2000, 1200, 200);
    var tail := ChunksFrom(text, 2000, 1200, 200);
    assert PySlice(text, 0, 1200) == text[0..1200];
    assert PySlice(text, 1000, 2200) == text[1000..2200];
    assert ChunksFrom(text, 1000, 1200, 200) == [text[1000..2200]] + tail;
    assert ChunksFrom(text, 0, 1200, 200) == [text[0..1200]] + ChunksFrom(text, 1000, 1200, 200);
  }
}
