/** `chunkText` of server.js: cut a text into windows of `chunkSize`
    characters whose start offsets advance by `chunkSize - overlap`. */
module Chunker {
  import opened Numeric
  import opened JsStrings

  /** The defaults the training handler uses. */
  const DefaultChunkSize: int := 1000
  const DefaultOverlap: int := 100

  /** The number of windows: one for every stretch of `stride` characters
      the loop starts in, the last stretch possibly shorter. */
  function ChunkCount(n: nat, stride: int): nat
    requires stride > 0
    decreases n
  {
    if n == 0 then 0 else if n <= stride then 1 else 1 + ChunkCount(n - stride, stride)
  }

  /** The loop's offset after k steps of `stride`. */
  function Offset(stride: nat, k: nat): nat
  {
    if k == 0 then 0 else Offset(stride, k - 1) + stride
  }

  /** After k steps the offset is k * stride. */
  lemma {:induction false} OffsetIsProduct(stride: nat, k: nat)
    ensures Offset(stride, k) == k * stride
  {
    if k > 0 {
      OffsetIsProduct(stride, k - 1);
    }
  }

  /** The k-th window, exactly the `substring` call the loop makes when its
      offset is k * stride. */
  function ChunkAt(text: string, chunkSize: int, overlap: int, k: nat): string
    requires overlap < chunkSize
  {
    var start := Offset(chunkSize - overlap, k);
    Substring(text, start, start + chunkSize)
  }

  /** What `chunkText(text, chunkSize, overlap)` returns. */
  function Chunks(text: string, chunkSize: int, overlap: int): (r: seq<string>)
    requires overlap < chunkSize
  {
    seq(ChunkCount(|text|, chunkSize - overlap), k requires k >= 0 => ChunkAt(text, chunkSize, overlap, k))
  }

  /** A window starts inside the text exactly when its index is below the
      window count: this is what makes the loop stop after ChunkCount steps. */
  lemma StartInsideText(n: nat, stride: int, k: nat)
    requires stride > 0
    ensures Offset(stride, k) < n <==> k < ChunkCount(n, stride)
  {
    OffsetIsProduct(stride, k);
    var c := ChunkCount(n, stride);
    CeilingBounds(n, stride);
    if k < c {
      MulMonotone(k, c - 1, stride);
    } else {
      MulMonotone(c, k, stride);
    }
  }

  /** The window count c is ceil(n / stride): (c - 1) * stride < n <= c * stride. */
  lemma {:induction false} CeilingBounds(n: nat, stride: int)
    requires stride > 0
    ensures var c := ChunkCount(n, stride);
            n <= c * stride && (c - 1) * stride < n
    decreases n
  {
    if n > stride {
      CeilingBounds(n - stride, stride);
      var c := ChunkCount(n - stride, stride);
      assert (c + 1) * stride == c * stride + stride;
      assert (c + 1 - 1) * stride == (c - 1) * stride + stride;
    }
  }



  /** The number of windows is ceil(|text| / stride): enough strides to
      reach the end of the text, and one fewer would not. */
  lemma ChunkCountIsCeiling(text: string, chunkSize: int, overlap: int)
    requires overlap < chunkSize
    ensures var c, stride := |Chunks(text, chunkSize, overlap)|, chunkSize - overlap;
            |text| <= c * stride && (c == 0 || (c - 1) * stride < |text|)
  {
    var c, stride := |Chunks(text, chunkSize, overlap)|, chunkSize - overlap;
    StartInsideText(|text|, stride, c);
    OffsetIsProduct(stride, c);
    if c > 0 {
      StartInsideText(|text|, stride, c - 1);
      OffsetIsProduct(stride, c - 1);
    }
  }

  lemma MulMonotone(a: nat, b: nat, m: nat)
    requires a <= b
    ensures a * m <= b * m
  {
  }

  /** The loop of `chunkText`: `i` advances by `chunkSize - overlap` while it
      is inside the text, and each step pushes `text.substring(i, i + chunkSize)`.
      The source does not reject `overlap >= chunkSize`; it would loop
      forever, so here that is a precondition. */
  method ChunkText(text: string, chunkSize: int, overlap: int) returns (chunks: seq<string>)
    requires overlap < chunkSize
    ensures chunks == Chunks(text, chunkSize, overlap)
  {
    var stride := chunkSize - overlap;
    chunks := [];
    var i := 0;
    while i < |text|
      invariant i == Offset(stride, |chunks|)
      invariant |chunks| <= ChunkCount(|text|, stride)
      invariant forall k :: 0 <= k < |chunks| ==> chunks[k] == ChunkAt(text, chunkSize, overlap, k)
      decreases |text| - i
    {
      StartInsideText(|text|, stride, |chunks|);
      chunks := chunks + [Substring(text, i, i + chunkSize)];
      i := i + stride;
    }
    StartInsideText(|text|, stride, |chunks|);
  }

  // ---------------------------------------------------------------------
  // properties of the windows, for a non-negative chunk size

  /** Window k is the slice of the text from k * stride, `chunkSize` long or
      cut at the end of the text, and so never longer than `chunkSize`. */
  lemma ChunkIsSlice(text: string, chunkSize: int, overlap: int, k: nat)
    requires 0 <= chunkSize && overlap < chunkSize
    requires k < |Chunks(text, chunkSize, overlap)|
    ensures var start := Offset(chunkSize - overlap, k);
            0 <= start < |text| &&
            Chunks(text, chunkSize, overlap)[k] == text[start..Min(start + chunkSize, |text|)]
    ensures |Chunks(text, chunkSize, overlap)[k]| <= chunkSize
    ensures chunkSize > 0 ==> |Chunks(text, chunkSize, overlap)[k]| > 0
  {
    StartInsideText(|text|, chunkSize - overlap, k);
    OffsetIsProduct(chunkSize - overlap, k);
  }

  /** Every window is at most `chunkSize` long. */
  lemma ChunksBounded(text: string, chunkSize: int, overlap: int)
    requires 0 <= chunkSize && overlap < chunkSize
    ensures forall k :: 0 <= k < |Chunks(text, chunkSize, overlap)| ==>
              |Chunks(text, chunkSize, overlap)[k]| <= chunkSize
  {
    forall k | 0 <= k < |Chunks(text, chunkSize, overlap)| {
      ChunkIsSlice(text, chunkSize, overlap, k);
    }
  }

  /** The empty text has no windows; any other text has at least one, and the
      first is a prefix of the text. */
  lemma EmptyAndFirstChunk(text: string, chunkSize: int, overlap: int)
    requires 0 <= chunkSize && overlap < chunkSize
    ensures |text| == 0 <==> |Chunks(text, chunkSize, overlap)| == 0
    ensures |text| > 0 ==> Chunks(text, chunkSize, overlap)[0] == text[..Min(chunkSize, |text|)]
  {
    StartInsideText(|text|, chunkSize - overlap, 0);
    if |text| > 0 {
      ChunkIsSlice(text, chunkSize, overlap, 0);
    }
  }

  /** Consecutive windows overlap: window k + 1 begins with the last
      `min(overlap, |text| - start of window k + 1)` characters of window k. */
  lemma ConsecutiveChunksOverlap(text: string, chunkSize: int, overlap: int, k: nat)
    requires 0 <= overlap < chunkSize
    requires k + 1 < |Chunks(text, chunkSize, overlap)|
    ensures var cs := Chunks(text, chunkSize, overlap);
            var shared := Min(overlap, |text| - Offset(chunkSize - overlap, k + 1));
            0 <= shared <= |cs[k]| && shared <= |cs[k + 1]| &&
            cs[k + 1][..shared] == cs[k][|cs[k]| - shared..]
  {
    var cs := Chunks(text, chunkSize, overlap);
    var stride := chunkSize - overlap;
    var s0, s1 := Offset(stride, k), Offset(stride, k + 1);
    assert s1 == s0 + stride;
    ChunkIsSlice(text, chunkSize, overlap, k);
    ChunkIsSlice(text, chunkSize, overlap, k + 1);
    assert cs[k] == text[s0..Min(s0 + chunkSize, |text|)];
    assert cs[k + 1] == text[s1..Min(s1 + chunkSize, |text|)];
    SlicesOverlap(text, chunkSize, overlap, s0, s1);
  }

  /** Two windows `chunkSize - overlap` apart share the first window's last
      `overlap` characters, or fewer where the text ends first. */
  lemma SlicesOverlap(text: string, chunkSize: int, overlap: int, s0: nat, s1: nat)
    requires 0 <= overlap < chunkSize
    requires s1 == s0 + (chunkSize - overlap) && s1 < |text|
    ensures var a, b := text[s0..Min(s0 + chunkSize, |text|)], text[s1..Min(s1 + chunkSize, |text|)];
            var shared := Min(overlap, |text| - s1);
            0 <= shared <= |a| && shared <= |b| && b[..shared] == a[|a| - shared..]
  {
    var e0, e1 := Min(s0 + chunkSize, |text|), Min(s1 + chunkSize, |text|);
    var a, b := text[s0..e0], text[s1..e1];
    var shared := Min(overlap, |text| - s1);
    assert e0 == s1 + shared;
    assert b[..shared] == text[s1..e0];
    assert a[|a| - shared..] == text[s1..e0];
  }

  /** A window with its first `overlap` characters (or all of it, if shorter)
      removed. */
  function DropOverlap(chunk: string, overlap: nat): string
  {
    chunk[Min(overlap, |chunk|)..]
  }

  /** The first window followed by every later window with its overlap
      removed. */
  function Reassemble(chunks: seq<string>, overlap: nat): string
    decreases |chunks|
  {
    if |chunks| == 0 then ""
    else if |chunks| == 1 then chunks[0]
    else Reassemble(chunks[..|chunks| - 1], overlap) + DropOverlap(chunks[|chunks| - 1], overlap)
  }

  /** Window j of `cs` starts inside the text at j * stride and is the slice
      the loop cuts there. */
  predicate IsWindow(text: string, cs: seq<string>, chunkSize: nat, stride: nat, j: nat)
    requires j < |cs|
  {
    var start := Offset(stride, j);
    start < |text| && cs[j] == text[start..Min(start + chunkSize, |text|)]
  }

  /** Concatenating the windows with the overlap removed gives back the text. */
  lemma ChunksReassemble(text: string, chunkSize: int, overlap: int)
    requires 0 <= overlap < chunkSize
    ensures Reassemble(Chunks(text, chunkSize, overlap), overlap) == text
  {
    var cs := Chunks(text, chunkSize, overlap);
    var stride: nat := chunkSize - overlap;
    var c := |cs|;
    if c == 0 {
      EmptyAndFirstChunk(text, chunkSize, overlap);
    } else {
      ChunksAreWindows(text, chunkSize, overlap, stride);
      ReassemblePrefix(text, cs, chunkSize, overlap, stride, c);
      assert cs[..c] == cs;
      LastWindowReachesEnd(text, chunkSize, overlap, stride);
    }
  }

  /** Every element of Chunks is the window the loop cuts at its index. */
  lemma ChunksAreWindows(text: string, chunkSize: int, overlap: int, stride: nat)
    requires 0 <= overlap < chunkSize && stride == chunkSize - overlap
    ensures forall j: nat :: j < |Chunks(text, chunkSize, overlap)| ==>
              IsWindow(text, Chunks(text, chunkSize, overlap), chunkSize, stride, j)
  {
    forall j: nat | j < |Chunks(text, chunkSize, overlap)|
      ensures IsWindow(text, Chunks(text, chunkSize, overlap), chunkSize, stride, j)
    {
      ChunkIsSlice(text, chunkSize, overlap, j);
    }
  }

  /** The last window ends at the end of the text. */
  lemma LastWindowReachesEnd(text: string, chunkSize: int, overlap: int, stride: nat)
    requires 0 <= overlap < chunkSize && stride == chunkSize - overlap
    requires |Chunks(text, chunkSize, overlap)| > 0
    ensures Offset(stride, |Chunks(text, chunkSize, overlap)| - 1) + chunkSize >= |text|
  {
    var c := |Chunks(text, chunkSize, overlap)|;
    ChunkCountIsCeiling(text, chunkSize, overlap);
    OffsetIsProduct(stride, c - 1);
    assert (c - 1) * stride + stride == c * stride;
  }

  /** After the first k windows the reassembled text is the text up to the end
      of window k - 1, for any sequence whose windows are the slices the loop
      cuts. */
  lemma {:induction false} ReassemblePrefix(text: string, cs: seq<string>, chunkSize: nat, overlap: nat, stride: nat, k: nat)
    requires stride == chunkSize - overlap > 0
    requires 1 <= k <= |cs|
    requires forall j: nat :: j < |cs| ==> IsWindow(text, cs, chunkSize, stride, j)
    ensures Reassemble(cs[..k], overlap) == text[..Min(Offset(stride, k - 1) + chunkSize, |text|)]
  {
    assert IsWindow(text, cs, chunkSize, stride, k - 1);
    if k == 1 {
      assert cs[..1] == [cs[0]];
    } else {
      ReassemblePrefix(text, cs, chunkSize, overlap, stride, k - 1);
      ReassembleStep(text, cs, chunkSize, overlap, k, Offset(stride, k - 2), Offset(stride, k - 1));
    }
  }

  /** One step of the reassembly: the window at `start` with its overlap
      removed continues the text where the window at `prev` ended. */
  lemma ReassembleStep(text: string, cs: seq<string>, chunkSize: int, overlap: int, k: nat, prev: int, start: int)
    requires 0 <= overlap < chunkSize && 2 <= k <= |cs|
    requires 0 <= prev && start == prev + (chunkSize - overlap) && start < |text|
    requires cs[k - 1] == text[start..Min(start + chunkSize, |text|)]
    requires Reassemble(cs[..k - 1], overlap) == text[..Min(prev + chunkSize, |text|)]
    ensures Reassemble(cs[..k], overlap) == text[..Min(start + chunkSize, |text|)]
  {
    assert cs[..k][..k - 1] == cs[..k - 1];
    var prevEnd, end := Min(prev + chunkSize, |text|), Min(start + chunkSize, |text|);
    assert DropOverlap(cs[k - 1], overlap) == text[prevEnd..end];
    assert text[..prevEnd] + text[prevEnd..end] == text[..end];
  }

  /** With the defaults 1000 and 100 a 3000-character text gives four windows,
      starting at 0, 900, 1800 and 2700, the last 300 characters long. */
  lemma DefaultsOn3000Characters(text: string)
    requires |text| == 3000
    ensures var cs := Chunks(text, DefaultChunkSize, DefaultOverlap);
            |cs| == 4 &&
            cs[0] == text[0..1000] && cs[1] == text[900..1900] &&
            cs[2] == text[1800..2800] && cs[3] == text[2700..3000] && |cs[3]| == 300
  {
    var cs := Chunks(text, DefaultChunkSize, DefaultOverlap);
    assert ChunkCount(300, 900) == 1;
    assert ChunkCount(1200, 900) == 2;
    assert ChunkCount(2100, 900) == 3;
    assert ChunkCount(3000, 900) == 4;
    assert |cs| == 4;
    assert cs[1] == Substring(text, 900, 1900);
    assert cs[2] == Substring(text, 1800, 2800);
    assert cs[3] == Substring(text, 2700, 3700);
  }
}
